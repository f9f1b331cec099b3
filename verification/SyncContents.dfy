/** What the tables hold for a file, said over its decoded lines: which line and item each row comes
    from, and that there are no others. */
module SyncContents {
  import opened Bytes
  import opened Optional
  import opened TextLines
  import opened SyncLines
  import opened SyncRecords
  import opened SyncTables
  import opened SyncSession
  import opened SyncTheorem

  // ---------------------------------------------------------------- the lines of a file

  function Decoded(lines: seq<seq<Byte>>, decode: Decoder): seq<Line> {
    seq(|lines|, n requires 0 <= n < |lines| => decode(lines[n]))
  }

  /** The tables after a rebuild of nothing but these lines. */
  function Contents(f: string, lines: seq<seq<Byte>>, decode: Decoder): Rows {
    Ingest(NO_ROWS, LinesRecords(f, 0, lines, decode))
  }

  /** Item `i` of line `n` is tool call `c`. */
  predicate Calls(ds: seq<Line>, n: nat, i: nat, c: string) {
    n < |ds| && ds[n].Assistant? && i < |ds[n].items| && ds[n].items[i].ToolCall? && ds[n].items[i].callId == c
  }

  /** Line `n` is the result of tool call `c`. */
  predicate Answers(ds: seq<Line>, n: nat, c: string) {
    n < |ds| && ds[n].ToolResult? && ds[n].callId == c
  }

  predicate CallsEdit(ds: seq<Line>, n: nat, i: nat, c: string) {
    Calls(ds, n, i, c) && ds[n].items[i].name == "edit"
  }

  predicate AnswersEdit(ds: seq<Line>, n: nat, c: string) {
    Answers(ds, n, c) && ds[n].name == "edit"
  }

  /** Item `i` of line `n` is an edit call with a section `x`. */
  predicate HasSection(ds: seq<Line>, n: nat, i: nat, c: string, x: nat) {
    CallsEdit(ds, n, i, c) && x < |ds[n].items[i].sections|
  }

  predicate Later(n: nat, i: nat, m: nat, j: nat) {
    n < m || (n == m && i < j)
  }

  ghost predicate LastCall(ds: seq<Line>, n: nat, i: nat, c: string) {
    CallsEdit(ds, n, i, c) && forall m: nat, j: nat | CallsEdit(ds, m, j, c) :: !Later(n, i, m, j)
  }

  ghost predicate LastAnswer(ds: seq<Line>, n: nat, c: string) {
    AnswersEdit(ds, n, c) && forall m: nat | AnswersEdit(ds, m, c) :: m <= n
  }

  ghost predicate LastSection(ds: seq<Line>, n: nat, i: nat, c: string, x: nat) {
    HasSection(ds, n, i, c, x) && forall m: nat, j: nat | HasSection(ds, m, j, c, x) :: !Later(n, i, m, j)
  }

  // ---------------------------------------------------------------- the last row with a key

  lemma {:induction false} LastForConcat<R>(a: seq<(Key, R)>, b: seq<(Key, R)>, k: Key)
    ensures LastFor(a + b, k) == if LastFor(b, k).Some? then LastFor(b, k) else LastFor(a, k)
  {
    if b == [] {
      assert a + b == a;
    } else {
      assert (a + b)[..|a + b| - 1] == a + b[..|b| - 1];
      LastForConcat(a, b[..|b| - 1], k);
    }
  }

  lemma {:induction false} LastForNone<R>(rows: seq<(Key, R)>, k: Key)
    ensures LastFor(rows, k) == None <==> forall i | 0 <= i < |rows| :: rows[i].0 != k
  {
    if rows != [] {
      LastForNone(rows[..|rows| - 1], k);
      assert forall i | 0 <= i < |rows| - 1 :: rows[..|rows| - 1][i] == rows[i];
    }
  }

  lemma {:induction false} LastForAt<R>(rows: seq<(Key, R)>, k: Key, i: nat)
    requires i < |rows| && rows[i].0 == k && forall j | i < j < |rows| :: rows[j].0 != k
    ensures LastFor(rows, k) == Some(rows[i].1)
  {
    if i < |rows| - 1 { LastForAt(rows[..|rows| - 1], k, i); }
  }

  lemma {:induction false} PutLast<R>(rows: seq<(Key, R)>, k: Key)
    ensures var t := Put(map[], rows);
      (k in t <==> LastFor(rows, k).Some?) && (k in t ==> t[k] == LastFor(rows, k).value)
  {
    if rows != [] { PutLast(rows[..|rows| - 1], k); }
  }

  // ---------------------------------------------------------------- rows by line and item

  function Flats<R>(cells: seq<seq<seq<R>>>): seq<seq<R>> {
    seq(|cells|, n requires 0 <= n < |cells| => Flat(cells[n]))
  }

  lemma {:induction false} FlatSnoc<R>(parts: seq<seq<R>>, last: seq<R>)
    ensures Flat(parts + [last]) == Flat(parts) + last
  {
    assert (parts + [last])[..|parts|] == parts;
  }

  /** The row that stands for a key comes from the last part that has one. */
  lemma {:induction false} FlatLast<R>(parts: seq<seq<(Key, R)>>, k: Key) returns (n: nat)
    ensures LastFor(Flat(parts), k) == None ==> forall m | 0 <= m < |parts| :: LastFor(parts[m], k) == None
    ensures LastFor(Flat(parts), k).Some? ==>
      && n < |parts| && LastFor(Flat(parts), k) == LastFor(parts[n], k)
      && forall m | n < m < |parts| :: LastFor(parts[m], k) == None
  {
    n := 0;
    if parts != [] {
      var init, last := parts[..|parts| - 1], parts[|parts| - 1];
      n := FlatLast(init, k);
      LastForConcat(Flat(init), last, k);
      assert parts == init + [last];
      FlatSnoc(init, last);
      hide Flat, LastFor;
      assert forall m | 0 <= m < |init| :: parts[m] == init[m];
      if LastFor(last, k).Some? { n := |init|; }
    }
  }

  /** The same for parts that have parts. */
  lemma {:induction false} CellLast<R>(cells: seq<seq<seq<(Key, R)>>>, k: Key) returns (n: nat, i: nat)
    ensures LastFor(Flat(Flats(cells)), k) == None ==>
      forall m, j | 0 <= m < |cells| && 0 <= j < |cells[m]| :: LastFor(cells[m][j], k) == None
    ensures LastFor(Flat(Flats(cells)), k).Some? ==>
      && n < |cells| && i < |cells[n]| && LastFor(Flat(Flats(cells)), k) == LastFor(cells[n][i], k)
      && forall m, j | 0 <= m < |cells| && 0 <= j < |cells[m]| && Later(n, i, m, j) :: LastFor(cells[m][j], k) == None
  {
    hide Flat, LastFor;
    n := FlatLast(Flats(cells), k);
    i := 0;
    forall m, j | 0 <= m < |cells| && 0 <= j < |cells[m]| && LastFor(Flats(cells)[m], k) == None
      ensures LastFor(cells[m][j], k) == None
    {
      var _ := FlatLast(cells[m], k);
    }
    if LastFor(Flat(Flats(cells)), k).Some? { i := FlatLast(cells[n], k); }
  }

  // ---------------------------------------------------------------- the cells of the item tables

  function ItemAt(f: string, n: nat, line: Line, i: nat): Records
    requires line.Assistant? && i < |line.items|
  {
    ItemRecords(f, n, line.stamp, line.model, line.items[i])
  }

  function ItemCount(line: Line): nat {
    if line.Assistant? then |line.items| else 0
  }

  function LineCalls(f: string, n: nat, line: Line): seq<seq<(Key, CallRow)>> {
    seq(ItemCount(line), i requires 0 <= i < ItemCount(line) => ItemAt(f, n, line, i).calls)
  }

  function LineStubs(f: string, n: nat, line: Line): seq<seq<(Key, Stub)>> {
    seq(ItemCount(line), i requires 0 <= i < ItemCount(line) => ItemAt(f, n, line, i).stubs)
  }

  function LineSections(f: string, n: nat, line: Line): seq<seq<(Key, SectionRow)>> {
    seq(ItemCount(line), i requires 0 <= i < ItemCount(line) => ItemAt(f, n, line, i).sections)
  }

  lemma {:induction false} FlatStep<R>(parts: seq<seq<R>>, k: nat)
    requires 0 < k <= |parts|
    ensures Flat(parts[..k]) == Flat(parts[..k - 1]) + parts[k - 1]
  {
    assert parts[..k][..k - 1] == parts[..k - 1];
  }

  lemma {:induction false} ItemsStep(f: string, n: nat, line: Line, k: nat)
    requires line.Assistant? && 0 < k <= |line.items|
    ensures ItemsRecords(f, n, line.stamp, line.model, line.items[..k])
      == Join(ItemsRecords(f, n, line.stamp, line.model, line.items[..k - 1]), ItemAt(f, n, line, k - 1))
  {
    assert line.items[..k][..k - 1] == line.items[..k - 1];
  }

  lemma {:induction false} ItemsFlat(f: string, n: nat, line: Line, k: nat)
    requires line.Assistant? && k <= |line.items|
    ensures var r := ItemsRecords(f, n, line.stamp, line.model, line.items[..k]);
      && r.calls == Flat(LineCalls(f, n, line)[..k]) && r.stubs == Flat(LineStubs(f, n, line)[..k])
      && r.sections == Flat(LineSections(f, n, line)[..k])
  {
    hide ItemsRecords, Flat, ItemRecords;
    if k == 0 {
      NoItemsFlat(f, n, line);
    } else {
      ItemsStep(f, n, line, k);
      ItemsFlat(f, n, line, k - 1);
      FlatStep(LineCalls(f, n, line), k);
      FlatStep(LineStubs(f, n, line), k);
      FlatStep(LineSections(f, n, line), k);
    }
  }

  lemma {:induction false} NoItemsFlat(f: string, n: nat, line: Line)
    requires line.Assistant?
    ensures ItemsRecords(f, n, line.stamp, line.model, line.items[..0]) == NO_RECORDS
    ensures Flat(LineCalls(f, n, line)[..0]) == [] && Flat(LineStubs(f, n, line)[..0]) == []
    ensures Flat(LineSections(f, n, line)[..0]) == []
  {
    hide ItemAt;
  }

  lemma {:induction false} LineFlat(f: string, n: nat, line: Line)
    ensures var r := LineRecords(f, n, line);
      && r.calls == Flat(LineCalls(f, n, line)) && r.stubs == Flat(LineStubs(f, n, line))
      && r.sections == Flat(LineSections(f, n, line))
  {
    if line.Assistant? {
      ItemsFlat(f, n, line, |line.items|);
      hide Flat, ItemsRecords, Parts;
      assert line.items[..|line.items|] == line.items;
      assert LineCalls(f, n, line)[..|line.items|] == LineCalls(f, n, line);
      assert LineStubs(f, n, line)[..|line.items|] == LineStubs(f, n, line);
      assert LineSections(f, n, line)[..|line.items|] == LineSections(f, n, line);
    }
  }

  function CallCells(f: string, ds: seq<Line>): seq<seq<seq<(Key, CallRow)>>> {
    seq(|ds|, n requires 0 <= n < |ds| => LineCalls(f, n, ds[n]))
  }

  function StubCells(f: string, ds: seq<Line>): seq<seq<seq<(Key, Stub)>>> {
    seq(|ds|, n requires 0 <= n < |ds| => LineStubs(f, n, ds[n]))
  }

  function SectionCells(f: string, ds: seq<Line>): seq<seq<seq<(Key, SectionRow)>>> {
    seq(|ds|, n requires 0 <= n < |ds| => LineSections(f, n, ds[n]))
  }

  lemma {:induction false} FlatsSnoc<R>(cells: seq<seq<seq<R>>>, last: seq<seq<R>>)
    ensures Flat(Flats(cells + [last])) == Flat(Flats(cells)) + Flat(last)
  {
    FlatSnoc(Flats(cells), Flat(last));
    hide Flat;
    assert Flats(cells + [last]) == Flats(cells) + [Flat(last)];
  }

  lemma {:induction false} CellsSnoc(f: string, ds: seq<Line>, d: Line)
    ensures CallCells(f, ds + [d]) == CallCells(f, ds) + [LineCalls(f, |ds|, d)]
    ensures StubCells(f, ds + [d]) == StubCells(f, ds) + [LineStubs(f, |ds|, d)]
    ensures SectionCells(f, ds + [d]) == SectionCells(f, ds) + [LineSections(f, |ds|, d)]
  {
    hide LineCalls, LineStubs, LineSections;
  }

  lemma {:induction false} LinesFlat(f: string, lines: seq<seq<Byte>>, decode: Decoder)
    ensures var r, ds := LinesRecords(f, 0, lines, decode), Decoded(lines, decode);
      && r.calls == Flat(Flats(CallCells(f, ds))) && r.stubs == Flat(Flats(StubCells(f, ds)))
      && r.sections == Flat(Flats(SectionCells(f, ds)))
  {
    if lines != [] {
      var last := |lines| - 1;
      var init, d := Decoded(lines[..last], decode), decode(lines[last]);
      assert Decoded(lines, decode) == init + [d];
      assert LinesRecords(f, 0, lines, decode)
        == Join(LinesRecords(f, 0, lines[..last], decode), LineRecords(f, last, d));
      LinesFlat(f, lines[..last], decode);
      LineFlat(f, last, d);
      hide Flat, Flats, LinesRecords, LineRecords, CallCells, StubCells, SectionCells, LineCalls, LineStubs,
        LineSections;
      CellsSnoc(f, init, d);
      FlatsSnoc(CallCells(f, init), LineCalls(f, last, d));
      FlatsSnoc(StubCells(f, init), LineStubs(f, last, d));
      FlatsSnoc(SectionCells(f, init), LineSections(f, last, d));
    }
  }

  // ---------------------------------------------------------------- calls

  /** The row of a tool call. */
  function Called(line: Line, it: Item): CallRow
    requires line.Assistant? && it.ToolCall?
  {
    CallRow(line.stamp, if it.name == "" then "<unknown>" else it.name, it.name, line.model, it.arguments)
  }

  lemma {:induction false} CellSizes(f: string, ds: seq<Line>)
    ensures |CallCells(f, ds)| == |StubCells(f, ds)| == |SectionCells(f, ds)| == |ds|
    ensures forall n | 0 <= n < |ds| ::
      |CallCells(f, ds)[n]| == |StubCells(f, ds)[n]| == |SectionCells(f, ds)[n]| == ItemCount(ds[n])
  {
  }

  predicate CallKeyed(f: string, ds: seq<Line>, n: nat, i: nat, k: Key) {
    k.CallKey? && k.file == f && k.seqNo == n && Calls(ds, n, i, k.callId)
  }

  lemma {:induction false} CallCell(f: string, ds: seq<Line>, n: nat, i: nat, k: Key)
    requires n < |ds| && i < ItemCount(ds[n])
    ensures LastFor(CallCells(f, ds)[n][i], k)
      == if CallKeyed(f, ds, n, i, k) then Some(Called(ds[n], ds[n].items[i])) else None
  {
    var rows := CallCells(f, ds)[n][i];
    assert rows == ItemAt(f, n, ds[n], i).calls;
    assert |rows| == 1 ==> rows[..0] == [];
  }

  lemma {:induction false} LastCalled(f: string, ds: seq<Line>, k: Key) returns (n: nat, i: nat)
    ensures var r := LastFor(Flat(Flats(CallCells(f, ds))), k);
      && (r == None ==> forall m: nat, j: nat :: !CallKeyed(f, ds, m, j, k))
      && (r.Some? ==>
            && CallKeyed(f, ds, n, i, k) && r == Some(Called(ds[n], ds[n].items[i]))
            && forall m: nat, j: nat | CallKeyed(f, ds, m, j, k) :: !Later(n, i, m, j))
  {
    var cells := CallCells(f, ds);
    CellSizes(f, ds);
    hide Flat, Flats, LastFor, CallCells, Called;
    n, i := CellLast(cells, k);
    forall m, j | 0 <= m < |ds| && 0 <= j < ItemCount(ds[m])
      ensures LastFor(cells[m][j], k) == if CallKeyed(f, ds, m, j, k) then Some(Called(ds[m], ds[m].items[j])) else None
    {
      CallCell(f, ds, m, j, k);
    }
  }

  ghost predicate LastInLine(ds: seq<Line>, n: nat, i: nat, c: string) {
    Calls(ds, n, i, c) && forall j: nat | Calls(ds, n, j, c) :: j <= i
  }

  /** One row for each call id of each assistant line, from the line's last item with that id. */
  lemma {:induction false} CallsTable(f: string, lines: seq<seq<Byte>>, decode: Decoder, c: string, n: nat)
    ensures var ds, t, k := Decoded(lines, decode), Contents(f, lines, decode).calls, CallKey(f, c, n);
      && (k in t <==> exists i: nat :: Calls(ds, n, i, c))
      && forall i: nat | LastInLine(ds, n, i, c) :: k in t && t[k] == Called(ds[n], ds[n].items[i])
  {
    var ds, k := Decoded(lines, decode), CallKey(f, c, n);
    LinesFlat(f, lines, decode);
    CallsHold(f, lines, decode, k);
    hide Contents, LinesRecords, LastFor, Flat, Flats, CallCells, Decoded, Calls, Called;
    var m, i := LastCalled(f, ds, k);
    assert forall j: nat :: Calls(ds, n, j, c) <==> CallKeyed(f, ds, n, j, k);
  }

  lemma {:induction false} CallsHold(f: string, lines: seq<seq<Byte>>, decode: Decoder, k: Key)
    ensures var t, r := Contents(f, lines, decode).calls, LastFor(LinesRecords(f, 0, lines, decode).calls, k);
      (k in t <==> r.Some?) && (k in t ==> t[k] == r.value)
  {
    PutLast(LinesRecords(f, 0, lines, decode).calls, k);
    hide LinesRecords, Put, LastFor, PutStubs, PutOutcomes;
  }

  // ---------------------------------------------------------------- edit calls

  /** The columns that an edit call fills. */
  function CallColumns(n: nat, line: Line, it: Item): Stub
    requires line.Assistant? && it.ToolCall?
  {
    Stub(n, line.stamp.timestamp, it.inputLength)
  }

  predicate EditKeyed(f: string, ds: seq<Line>, n: nat, i: nat, k: Key) {
    k.EditKey? && k.file == f && CallsEdit(ds, n, i, k.callId)
  }

  lemma {:induction false} StubCell(f: string, ds: seq<Line>, n: nat, i: nat, k: Key)
    requires n < |ds| && i < ItemCount(ds[n])
    ensures LastFor(StubCells(f, ds)[n][i], k)
      == if EditKeyed(f, ds, n, i, k) then Some(CallColumns(n, ds[n], ds[n].items[i])) else None
  {
    var rows := StubCells(f, ds)[n][i];
    assert rows == ItemAt(f, n, ds[n], i).stubs;
    assert |rows| == 1 ==> rows[..0] == [];
  }

  lemma {:induction false} LastStub(f: string, ds: seq<Line>, k: Key) returns (n: nat, i: nat)
    ensures var r := LastFor(Flat(Flats(StubCells(f, ds))), k);
      && (r == None ==> forall m: nat, j: nat :: !EditKeyed(f, ds, m, j, k))
      && (r.Some? ==>
            && k.EditKey? && k.file == f && LastCall(ds, n, i, k.callId)
            && r == Some(CallColumns(n, ds[n], ds[n].items[i])))
  {
    var cells := StubCells(f, ds);
    CellSizes(f, ds);
    hide Flat, Flats, LastFor, StubCells, CallColumns;
    n, i := CellLast(cells, k);
    forall m, j | 0 <= m < |ds| && 0 <= j < ItemCount(ds[m])
      ensures LastFor(cells[m][j], k)
        == if EditKeyed(f, ds, m, j, k) then Some(CallColumns(m, ds[m], ds[m].items[j])) else None
    {
      StubCell(f, ds, m, j, k);
    }
  }

  // ---------------------------------------------------------------- sections

  predicate SectionKeyed(f: string, ds: seq<Line>, n: nat, i: nat, k: Key) {
    k.SectionKey? && k.file == f && HasSection(ds, n, i, k.callId, k.index)
  }

  lemma {:induction false} SectionCell(f: string, ds: seq<Line>, n: nat, i: nat, k: Key)
    requires n < |ds| && i < ItemCount(ds[n])
    ensures LastFor(SectionCells(f, ds)[n][i], k)
      == if SectionKeyed(f, ds, n, i, k) then Some(SectionRow(n, ds[n].items[i].sections[k.index])) else None
  {
    var rows, it := SectionCells(f, ds)[n][i], ds[n].items[i];
    assert rows == ItemAt(f, n, ds[n], i).sections;
    assert rows == if it.ToolCall? && it.name == "edit" then SectionRows(f, it.callId, n, it.sections) else [];
    hide SectionCells, ItemAt, LastFor;
    LastForNone(rows, k);
    if SectionKeyed(f, ds, n, i, k) { LastForAt(rows, k, k.index); }
  }

  lemma {:induction false} LastSectionRow(f: string, ds: seq<Line>, k: Key) returns (n: nat, i: nat)
    ensures var r := LastFor(Flat(Flats(SectionCells(f, ds))), k);
      && (r == None ==> forall m: nat, j: nat :: !SectionKeyed(f, ds, m, j, k))
      && (r.Some? ==>
            && k.SectionKey? && k.file == f && LastSection(ds, n, i, k.callId, k.index)
            && r == Some(SectionRow(n, ds[n].items[i].sections[k.index])))
  {
    var cells := SectionCells(f, ds);
    CellSizes(f, ds);
    hide Flat, Flats, LastFor, SectionCells;
    n, i := CellLast(cells, k);
    forall m, j | 0 <= m < |ds| && 0 <= j < ItemCount(ds[m])
      ensures LastFor(cells[m][j], k)
        == if SectionKeyed(f, ds, m, j, k) then Some(SectionRow(m, ds[m].items[j].sections[k.index])) else None
    {
      SectionCell(f, ds, m, j, k);
    }
  }

  /** One row for each edit and section index, from the last call of the edit that has such a section. */
  lemma {:induction false} SectionsTable(f: string, lines: seq<seq<Byte>>, decode: Decoder, c: string, x: nat)
    ensures var ds, t, k := Decoded(lines, decode), Contents(f, lines, decode).sections, SectionKey(f, c, x);
      && (k in t <==> exists n: nat, i: nat :: HasSection(ds, n, i, c, x))
      && forall n: nat, i: nat | LastSection(ds, n, i, c, x) ::
           k in t && t[k] == SectionRow(n, ds[n].items[i].sections[x])
  {
    var ds, k := Decoded(lines, decode), SectionKey(f, c, x);
    LinesFlat(f, lines, decode);
    SectionsHold(f, lines, decode, k);
    hide Contents, LinesRecords, LastFor, Flat, Flats, SectionCells, Decoded, HasSection;
    var n, i := LastSectionRow(f, ds, k);
    assert forall m: nat, j: nat :: HasSection(ds, m, j, c, x) <==> SectionKeyed(f, ds, m, j, k);
  }

  lemma {:induction false} SectionsHold(f: string, lines: seq<seq<Byte>>, decode: Decoder, k: Key)
    ensures var t, r := Contents(f, lines, decode).sections, LastFor(LinesRecords(f, 0, lines, decode).sections, k);
      (k in t <==> r.Some?) && (k in t ==> t[k] == r.value)
  {
    PutLast(LinesRecords(f, 0, lines, decode).sections, k);
    hide LinesRecords, Put, LastFor, PutStubs, PutOutcomes;
  }

  // ---------------------------------------------------------------- the tables with rows by line

  /** An item that holds words of the message, or of the thinking before it. */
  predicate Says(it: Item, thinking: bool) {
    if thinking then it.Thinking? && it.text != "" else it.Text? && it.text != ""
  }

  predicate Speaks(line: Line, thinking: bool) {
    line.Assistant? && exists i :: 0 <= i < |line.items| && Says(line.items[i], thinking)
  }

  /** The texts are those of the items that say something, in order. */
  lemma {:induction false} PartsAre(items: seq<Item>, thinking: bool) returns (at: seq<nat>)
    ensures |at| == |Parts(items, thinking)|
    ensures forall j | 0 <= j < |at| ::
      at[j] < |items| && Says(items[at[j]], thinking) && Parts(items, thinking)[j] == items[at[j]].text
    ensures forall i, j | 0 <= i < j < |at| :: at[i] < at[j]
    ensures forall i: nat | i < |items| && Says(items[i], thinking) :: i in at
  {
    if items == [] {
      at := [];
    } else {
      var last := |items| - 1;
      at := PartsAre(items[..last], thinking);
      if Says(items[last], thinking) { at := at + [last]; }
    }
  }

  /** The row of a result. */
  function Answered(line: Line): ResultRow
    requires line.ToolResult?
  {
    ResultRow(line.stamp, if line.name == "" then "<unknown>" else line.name, line.name, line.text, line.isError)
  }

  /** The columns that an edit's result fills: warnings count only if it succeeded. */
  function AnswerColumns(line: Line): Outcome
    requires line.ToolResult?
  {
    Outcome(line.success, if line.success then line.warnings else [])
  }

  /** The row of an assistant's message. */
  function Spoken(line: Line): AssistantRow
    requires line.Assistant?
  {
    AssistantRow(line.stamp, line.model,
      if Speaks(line, false) then Some(JoinLines(Parts(line.items, false))) else None,
      if Speaks(line, true) then Some(JoinLines(Parts(line.items, true))) else None)
  }

  predicate Asks(line: Line) {
    line.User? && line.text != ""
  }

  lemma {:induction false} NoWords(items: seq<Item>, thinking: bool)
    ensures Parts(items, thinking) == [] <==> forall i | 0 <= i < |items| :: !Says(items[i], thinking)
  {
    var at := PartsAre(items, thinking);
    hide Parts;
    if at != [] { assert Says(items[at[0]], thinking); }
  }

  lemma {:induction false} ItemsMake(f: string, n: nat, stamp: Stamp, model: Option<string>, items: seq<Item>)
    ensures var r := ItemsRecords(f, n, stamp, model, items);
      r.results == [] && r.assistant == [] && r.user == [] && r.outcomes == []
  {
    if items != [] { ItemsMake(f, n, stamp, model, items[..|items| - 1]); }
  }

  lemma {:induction false} LineMakes(f: string, n: nat, line: Line)
    ensures var r := LineRecords(f, n, line);
      && r.results == (if line.ToolResult? then [(CallKey(f, line.callId, n), Answered(line))] else [])
      && r.outcomes == (if line.ToolResult? && line.name == "edit"
                        then [(EditKey(f, line.callId), AnswerColumns(line))] else [])
      && r.assistant == (if Speaks(line, false) || Speaks(line, true) then [(MessageKey(f, n), Spoken(line))] else [])
      && r.user == (if Asks(line) then [(MessageKey(f, n), UserRow(line.stamp, line.text))] else [])
  {
    if line.Assistant? {
      ItemsMake(f, n, line.stamp, line.model, line.items);
      NoWords(line.items, false);
      NoWords(line.items, true);
      hide ItemsRecords, Parts, JoinLines;
    }
  }

  function ResultParts(f: string, ds: seq<Line>): seq<seq<(Key, ResultRow)>> {
    seq(|ds|, n requires 0 <= n < |ds| => LineRecords(f, n, ds[n]).results)
  }

  function OutcomeParts(f: string, ds: seq<Line>): seq<seq<(Key, Outcome)>> {
    seq(|ds|, n requires 0 <= n < |ds| => LineRecords(f, n, ds[n]).outcomes)
  }

  function AssistantParts(f: string, ds: seq<Line>): seq<seq<(Key, AssistantRow)>> {
    seq(|ds|, n requires 0 <= n < |ds| => LineRecords(f, n, ds[n]).assistant)
  }

  function UserParts(f: string, ds: seq<Line>): seq<seq<(Key, UserRow)>> {
    seq(|ds|, n requires 0 <= n < |ds| => LineRecords(f, n, ds[n]).user)
  }

  lemma {:induction false} PartsSnoc(f: string, ds: seq<Line>, d: Line)
    ensures ResultParts(f, ds + [d]) == ResultParts(f, ds) + [LineRecords(f, |ds|, d).results]
    ensures OutcomeParts(f, ds + [d]) == OutcomeParts(f, ds) + [LineRecords(f, |ds|, d).outcomes]
    ensures AssistantParts(f, ds + [d]) == AssistantParts(f, ds) + [LineRecords(f, |ds|, d).assistant]
    ensures UserParts(f, ds + [d]) == UserParts(f, ds) + [LineRecords(f, |ds|, d).user]
  {
    hide LineRecords;
  }

  lemma {:induction false} LinesFlatToo(f: string, lines: seq<seq<Byte>>, decode: Decoder)
    ensures var r, ds := LinesRecords(f, 0, lines, decode), Decoded(lines, decode);
      && r.results == Flat(ResultParts(f, ds)) && r.outcomes == Flat(OutcomeParts(f, ds))
      && r.assistant == Flat(AssistantParts(f, ds)) && r.user == Flat(UserParts(f, ds))
  {
    if lines != [] {
      var last := |lines| - 1;
      var init, d := Decoded(lines[..last], decode), decode(lines[last]);
      var b := LineRecords(f, last, d);
      assert Decoded(lines, decode) == init + [d];
      assert LinesRecords(f, 0, lines, decode) == Join(LinesRecords(f, 0, lines[..last], decode), b);
      LinesFlatToo(f, lines[..last], decode);
      hide Flat, LinesRecords, LineRecords, ResultParts, OutcomeParts, AssistantParts, UserParts;
      PartsSnoc(f, init, d);
      FlatSnoc(ResultParts(f, init), b.results);
      FlatSnoc(OutcomeParts(f, init), b.outcomes);
      FlatSnoc(AssistantParts(f, init), b.assistant);
      FlatSnoc(UserParts(f, init), b.user);
    }
  }

  /** At most one row. */
  lemma {:induction false} OneRow<R>(rows: seq<(Key, R)>, k: Key)
    requires |rows| <= 1
    ensures LastFor(rows, k) == if rows != [] && rows[0].0 == k then Some(rows[0].1) else None
  {
    if rows != [] { assert rows[..0] == []; }
  }

  // ---------------------------------------------------------------- results

  lemma {:induction false} LastResult(f: string, ds: seq<Line>, k: Key)
    ensures LastFor(Flat(ResultParts(f, ds)), k)
      == if k.CallKey? && k.file == f && Answers(ds, k.seqNo, k.callId) then Some(Answered(ds[k.seqNo])) else None
  {
    hide LineRecords, LastFor, Flat, Answered;
    var m := FlatLast(ResultParts(f, ds), k);
    forall l | 0 <= l < |ds| ensures LastFor(ResultParts(f, ds)[l], k)
      == if k.CallKey? && k.file == f && l == k.seqNo && Answers(ds, l, k.callId) then Some(Answered(ds[l])) else None
    {
      LineMakes(f, l, ds[l]);
      OneRow(ResultParts(f, ds)[l], k);
    }
  }

  /** One row for each result line. */
  lemma {:induction false} ResultsTable(f: string, lines: seq<seq<Byte>>, decode: Decoder, k: Key)
    ensures var ds, t := Decoded(lines, decode), Contents(f, lines, decode).results;
      && (k in t <==> k.CallKey? && k.file == f && Answers(ds, k.seqNo, k.callId))
      && (k in t ==> t[k] == Answered(ds[k.seqNo]))
  {
    LinesFlatToo(f, lines, decode);
    LastResult(f, Decoded(lines, decode), k);
    PutLast(LinesRecords(f, 0, lines, decode).results, k);
    hide LinesRecords, Put, LastFor, PutStubs, PutOutcomes, Flat, ResultParts, Decoded, Answered;
  }

  // ---------------------------------------------------------------- messages

  predicate SpeaksAt(ds: seq<Line>, n: nat) {
    n < |ds| && ds[n].Assistant? && (Speaks(ds[n], false) || Speaks(ds[n], true))
  }

  lemma {:induction false} LastSpoken(f: string, ds: seq<Line>, k: Key)
    ensures LastFor(Flat(AssistantParts(f, ds)), k)
      == if k.MessageKey? && k.file == f && SpeaksAt(ds, k.seqNo) then Some(Spoken(ds[k.seqNo])) else None
  {
    hide LineRecords, LastFor, Flat, Spoken;
    var m := FlatLast(AssistantParts(f, ds), k);
    forall l | 0 <= l < |ds| ensures LastFor(AssistantParts(f, ds)[l], k)
      == if k.MessageKey? && k.file == f && l == k.seqNo && SpeaksAt(ds, l) then Some(Spoken(ds[l])) else None
    {
      LineMakes(f, l, ds[l]);
      OneRow(AssistantParts(f, ds)[l], k);
    }
  }

  /** One row for each assistant line that says or thinks something, each text joined by newlines. */
  lemma {:induction false} AssistantTable(f: string, lines: seq<seq<Byte>>, decode: Decoder, k: Key)
    ensures var ds, t := Decoded(lines, decode), Contents(f, lines, decode).assistant;
      && (k in t <==> k.MessageKey? && k.file == f && SpeaksAt(ds, k.seqNo))
      && (k in t ==> t[k] == Spoken(ds[k.seqNo]))
  {
    LinesFlatToo(f, lines, decode);
    LastSpoken(f, Decoded(lines, decode), k);
    PutLast(LinesRecords(f, 0, lines, decode).assistant, k);
    hide LinesRecords, Put, LastFor, PutStubs, PutOutcomes, Flat, AssistantParts, Decoded, Speaks, Spoken;
  }

  predicate AsksAt(ds: seq<Line>, n: nat) {
    n < |ds| && ds[n].User? && ds[n].text != ""
  }

  lemma {:induction false} LastAsked(f: string, ds: seq<Line>, k: Key)
    ensures LastFor(Flat(UserParts(f, ds)), k)
      == if k.MessageKey? && k.file == f && AsksAt(ds, k.seqNo)
         then Some(UserRow(ds[k.seqNo].stamp, ds[k.seqNo].text)) else None
  {
    hide LineRecords, LastFor, Flat;
    var m := FlatLast(UserParts(f, ds), k);
    forall l | 0 <= l < |ds| ensures LastFor(UserParts(f, ds)[l], k)
      == if k.MessageKey? && k.file == f && l == k.seqNo && AsksAt(ds, l)
         then Some(UserRow(ds[l].stamp, ds[l].text)) else None
    {
      LineMakes(f, l, ds[l]);
      OneRow(UserParts(f, ds)[l], k);
    }
  }

  /** One row for each user line that is not empty. */
  lemma {:induction false} UserTable(f: string, lines: seq<seq<Byte>>, decode: Decoder, k: Key)
    ensures var ds, t := Decoded(lines, decode), Contents(f, lines, decode).user;
      && (k in t <==> k.MessageKey? && k.file == f && AsksAt(ds, k.seqNo))
      && (k in t ==> t[k] == UserRow(ds[k.seqNo].stamp, ds[k.seqNo].text))
  {
    LinesFlatToo(f, lines, decode);
    LastAsked(f, Decoded(lines, decode), k);
    PutLast(LinesRecords(f, 0, lines, decode).user, k);
    hide LinesRecords, Put, LastFor, PutStubs, PutOutcomes, Flat, UserParts, Decoded;
  }

  // ---------------------------------------------------------------- edits

  lemma {:induction false} LastOutcome(f: string, ds: seq<Line>, k: Key) returns (n: nat)
    ensures var r := LastFor(Flat(OutcomeParts(f, ds)), k);
      && (r == None ==> k.EditKey? && k.file == f ==> forall m: nat :: !AnswersEdit(ds, m, k.callId))
      && (r.Some? ==>
            && k.EditKey? && k.file == f && LastAnswer(ds, n, k.callId) && r == Some(AnswerColumns(ds[n])))
  {
    hide LineRecords, LastFor, Flat, AnswerColumns;
    n := FlatLast(OutcomeParts(f, ds), k);
    forall l | 0 <= l < |ds| ensures LastFor(OutcomeParts(f, ds)[l], k)
      == if k.EditKey? && k.file == f && AnswersEdit(ds, l, k.callId) then Some(AnswerColumns(ds[l])) else None
    {
      LineMakes(f, l, ds[l]);
      OneRow(OutcomeParts(f, ds)[l], k);
    }
  }

  /** An edit's row against the lines: number, time and length are those of its last call, success
      and warnings those of its last result. */
  ghost predicate RowOfEdit(r: EditRow, ds: seq<Line>, c: string) {
    && (forall n: nat, i: nat | LastCall(ds, n, i, c) ::
          Stub(r.seqNo, r.timestamp, r.inputLength) == CallColumns(n, ds[n], ds[n].items[i]))
    && (forall n: nat | LastAnswer(ds, n, c) ::
          r.success == Some(ds[n].success) && r.warnings == if ds[n].success then ds[n].warnings else [])
    && ((forall n: nat, i: nat :: !CallsEdit(ds, n, i, c)) ==> r.seqNo == r.timestamp == r.inputLength == 0)
    && ((forall n: nat :: !AnswersEdit(ds, n, c)) ==> r.success == None && r.warnings == [])
  }

  /** The row joins a stub and an outcome. */
  predicate Joins(r: EditRow, s: Option<Stub>, o: Option<Outcome>) {
    && Stub(r.seqNo, r.timestamp, r.inputLength) == (if s.Some? then s.value else Stub(0, 0, 0))
    && r.success == (if o.Some? then Some(o.value.success) else None)
    && r.warnings == if o.Some? then o.value.warnings else []
  }

  lemma {:induction false} EditsHold(f: string, lines: seq<seq<Byte>>, decode: Decoder, k: Key)
    ensures var t, r := Contents(f, lines, decode).edits, LinesRecords(f, 0, lines, decode);
      && (k in t <==> LastFor(r.stubs, k).Some? || LastFor(r.outcomes, k).Some?)
      && (k in t ==> Joins(t[k], LastFor(r.stubs, k), LastFor(r.outcomes, k)))
  {
    EditsPaired(LinesRecords(f, 0, lines, decode).stubs, LinesRecords(f, 0, lines, decode).outcomes, k);
    hide LinesRecords, Put, LastFor, PutStubs, PutOutcomes;
  }

  lemma {:induction false} StubFits(
    r: EditRow, s: Option<Stub>, o: Option<Outcome>, ds: seq<Line>, c: string, n: nat, i: nat)
    requires Joins(r, s, o)
    requires s == None ==> forall m: nat, j: nat :: !CallsEdit(ds, m, j, c)
    requires s.Some? ==> LastCall(ds, n, i, c) && s == Some(CallColumns(n, ds[n], ds[n].items[i]))
    ensures forall m: nat, j: nat | LastCall(ds, m, j, c) ::
      Stub(r.seqNo, r.timestamp, r.inputLength) == CallColumns(m, ds[m], ds[m].items[j])
    ensures (forall m: nat, j: nat :: !CallsEdit(ds, m, j, c)) ==> r.seqNo == r.timestamp == r.inputLength == 0
  {
    hide CallColumns;
  }

  lemma {:induction false} OutcomeFits(
    r: EditRow, s: Option<Stub>, o: Option<Outcome>, ds: seq<Line>, c: string, n: nat)
    requires Joins(r, s, o)
    requires o == None ==> forall m: nat :: !AnswersEdit(ds, m, c)
    requires o.Some? ==> LastAnswer(ds, n, c) && o == Some(AnswerColumns(ds[n]))
    ensures forall m: nat | LastAnswer(ds, m, c) ::
      r.success == Some(ds[m].success) && r.warnings == if ds[m].success then ds[m].warnings else []
    ensures (forall m: nat :: !AnswersEdit(ds, m, c)) ==> r.success == None && r.warnings == []
  {
  }

  ghost predicate CalledOrAnswered(ds: seq<Line>, c: string) {
    (exists n: nat, i: nat :: CallsEdit(ds, n, i, c)) || exists n: nat :: AnswersEdit(ds, n, c)
  }

  /** One row for each edit that some line calls or answers, whichever of the two stands first. */
  lemma {:induction false} EditsTable(f: string, lines: seq<seq<Byte>>, decode: Decoder, k: Key)
    ensures var ds, t := Decoded(lines, decode), Contents(f, lines, decode).edits;
      && (k in t <==> k.EditKey? && k.file == f && CalledOrAnswered(ds, k.callId))
      && (k in t ==> RowOfEdit(t[k], ds, k.callId))
  {
    var ds, r, t := Decoded(lines, decode), LinesRecords(f, 0, lines, decode), Contents(f, lines, decode).edits;
    LinesFlat(f, lines, decode);
    LinesFlatToo(f, lines, decode);
    EditsHold(f, lines, decode, k);
    var n, i := LastStub(f, ds, k);
    var m := LastOutcome(f, ds, k);
    hide *;
    if k.EditKey? && k.file == f {
      EditKeyedIs(f, ds, k);
      EditFits(t, k, LastFor(r.stubs, k), LastFor(r.outcomes, k), ds, n, i, m);
    }
  }

  lemma {:induction false} EditFits(
    t: Table<EditRow>, k: Key, s: Option<Stub>, o: Option<Outcome>, ds: seq<Line>, n: nat, i: nat, m: nat)
    requires k.EditKey? && (k in t <==> s.Some? || o.Some?) && (k in t ==> Joins(t[k], s, o))
    requires s == None ==> forall m: nat, j: nat :: !CallsEdit(ds, m, j, k.callId)
    requires s.Some? ==> LastCall(ds, n, i, k.callId) && s == Some(CallColumns(n, ds[n], ds[n].items[i]))
    requires o == None ==> forall m: nat :: !AnswersEdit(ds, m, k.callId)
    requires o.Some? ==> LastAnswer(ds, m, k.callId) && o == Some(AnswerColumns(ds[m]))
    ensures k in t <==> CalledOrAnswered(ds, k.callId)
    ensures k in t ==> RowOfEdit(t[k], ds, k.callId)
  {
    hide CallColumns, AnswerColumns, Joins, CallsEdit, AnswersEdit;
    if k in t {
      StubFits(t[k], s, o, ds, k.callId, n, i);
      OutcomeFits(t[k], s, o, ds, k.callId, m);
    }
  }

  lemma {:induction false} EditKeyedIs(f: string, ds: seq<Line>, k: Key)
    requires k.EditKey? && k.file == f
    ensures forall n: nat, i: nat :: EditKeyed(f, ds, n, i, k) <==> CallsEdit(ds, n, i, k.callId)
  {
  }

  // ---------------------------------------------------------------- nothing else

  /** Calls and sections, too, have keys of their table's form and of the file. */
  lemma {:induction false} KeysShaped(f: string, lines: seq<seq<Byte>>, decode: Decoder, k: Key)
    ensures k in Contents(f, lines, decode).calls ==> k.CallKey? && k.file == f
    ensures k in Contents(f, lines, decode).sections ==> k.SectionKey? && k.file == f
  {
    LinesFlat(f, lines, decode);
    CallsHold(f, lines, decode, k);
    SectionsHold(f, lines, decode, k);
    hide LinesRecords, LastFor, Flat, Flats, Contents, Decoded, CallCells, SectionCells;
    var _, _ := LastCalled(f, Decoded(lines, decode), k);
    var _, _ := LastSectionRow(f, Decoded(lines, decode), k);
  }

  // ---------------------------------------------------------------- headers

  /** The header is that of the first line, if it is one, and no other line's. */
  lemma {:induction false} HeaderIs(f: string, lines: seq<seq<Byte>>, decode: Decoder)
    ensures LinesRecords(f, 0, lines, decode).meta
      == if lines != [] && decode(lines[0]).Session? then decode(lines[0]).meta else NO_META
  {
    LinesOwned(f, 0, lines, decode);
    if lines != [] {
      var line := decode(lines[0]);
      if line.Assistant? { ItemsOwned(f, 0, line.stamp, line.model, line.items); }
    }
    hide LinesRecords, ItemsRecords;
  }

  // ---------------------------------------------------------------- after any syncs

  /** A database up to date with a file pairs the edits of the synced lines, and has no others. */
  lemma {:induction false} SyncedEdits(db: Database, f: string, content: seq<Byte>, decode: Decoder, c: string)
    requires UpToDate(db, f, content, decode)
    ensures var ds := Decoded(SplitLines(content[..db.sessions[f].offset]), decode);
      && (EditKey(f, c) in db.rows.edits <==> CalledOrAnswered(ds, c))
      && (EditKey(f, c) in db.rows.edits ==> RowOfEdit(db.rows.edits[EditKey(f, c)], ds, c))
  {
    var lines, k := SplitLines(content[..db.sessions[f].offset]), EditKey(f, c);
    var mine := Slice(db.rows, f).edits;
    assert k in db.rows.edits <==> k in mine;
    assert k in mine ==> mine[k] == db.rows.edits[k];
    assert Slice(db.rows, f) == Contents(f, lines, decode);
    hide Slice, Contents, SplitLines, CalledOrAnswered, RowOfEdit, Decoded;
    EditsTable(f, lines, decode, k);
  }

  /** ... and where the header has been kept, it is the first line's. */
  lemma {:induction false} SyncedHeader(db: Database, f: string, content: seq<Byte>, decode: Decoder)
    requires HeaderKept(db, f, content, decode)
    ensures var lines := SplitLines(content[..db.sessions[f].offset]);
      db.sessions[f].meta == if lines != [] && decode(lines[0]).Session? then decode(lines[0]).meta else NO_META
  {
    HeaderIs(f, SplitLines(content[..db.sessions[f].offset]), decode);
    hide SplitLines, LinesRecords;
  }
}
