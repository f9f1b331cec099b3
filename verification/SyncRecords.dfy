/** One pass over the lines of a session file: the rows it collects. */
module SyncRecords {
  import opened Bytes
  import opened Optional
  import opened TextLines
  import opened SyncLines

  // ---------------------------------------------------------------- decoded lines

  datatype Meta = Meta(
    startedAt: Option<int>, title: Option<string>, cwd: Option<string>,
    uuid: Option<string>, version: Option<int>)

  const NO_META: Meta := Meta(None, None, None, None, None)

  datatype Stamp = Stamp(entry: Option<string>, timestamp: int)

  datatype Section = Section(target: string, detectors: string)

  datatype Item =
    | ToolCall(callId: string, name: string, arguments: string, inputLength: nat, sections: seq<Section>)
    | Thinking(text: string)
    | Text(text: string)
    | OtherItem

  /** What one line decodes to. `Skipped`: blank or not JSON. `Fails`: the decoder raises
      something other than a syntax error, which ends the whole pass. */
  datatype Line =
    | Skipped
    | Fails
    | Session(meta: Meta)
    | Assistant(stamp: Stamp, model: Option<string>, items: seq<Item>)
    | ToolResult(stamp: Stamp, callId: string, name: string, text: string, isError: bool,
        success: bool, warnings: seq<string>)
    | User(stamp: Stamp, text: string)
    | OtherLine

  // ---------------------------------------------------------------- rows

  datatype Key =
    | CallKey(file: string, callId: string, seqNo: nat)
    | MessageKey(file: string, seqNo: nat)
    | EditKey(file: string, callId: string)
    | SectionKey(file: string, callId: string, index: nat)

  datatype CallRow = CallRow(stamp: Stamp, tool: string, rawName: string, model: Option<string>, arguments: string)

  datatype ResultRow = ResultRow(stamp: Stamp, tool: string, rawName: string, text: string, isError: bool)

  datatype AssistantRow = AssistantRow(
    stamp: Stamp, model: Option<string>, text: Option<string>, thinking: Option<string>)

  datatype UserRow = UserRow(stamp: Stamp, text: string)

  /** First half of an edit call, known when the call is read. */
  datatype Stub = Stub(seqNo: nat, timestamp: int, inputLength: nat)

  /** Second half, known when its result is read. */
  datatype Outcome = Outcome(success: bool, warnings: seq<string>)

  datatype SectionRow = SectionRow(seqNo: nat, section: Section)

  datatype Records = Records(
    meta: Meta,
    calls: seq<(Key, CallRow)>,
    results: seq<(Key, ResultRow)>,
    assistant: seq<(Key, AssistantRow)>,
    user: seq<(Key, UserRow)>,
    stubs: seq<(Key, Stub)>,
    outcomes: seq<(Key, Outcome)>,
    sections: seq<(Key, SectionRow)>)

  const NO_RECORDS: Records := Records(NO_META, [], [], [], [], [], [], [])

  function Coalesce<T>(newer: Option<T>, older: Option<T>): Option<T> {
    if newer.Some? then newer else older
  }

  function CoalesceMeta(newer: Meta, older: Meta): Meta {
    Meta(
      Coalesce(newer.startedAt, older.startedAt), Coalesce(newer.title, older.title),
      Coalesce(newer.cwd, older.cwd), Coalesce(newer.uuid, older.uuid),
      Coalesce(newer.version, older.version))
  }

  /** What two consecutive passes collect together. */
  function Join(a: Records, b: Records): Records {
    Records(
      CoalesceMeta(b.meta, a.meta), a.calls + b.calls, a.results + b.results,
      a.assistant + b.assistant, a.user + b.user, a.stubs + b.stubs,
      a.outcomes + b.outcomes, a.sections + b.sections)
  }

  function ToolName(raw: string): string {
    if raw == "" then "<unknown>" else raw
  }

  function SectionRows(f: string, callId: string, n: nat, sections: seq<Section>): seq<(Key, SectionRow)> {
    seq(|sections|, i requires 0 <= i < |sections| => (SectionKey(f, callId, i), SectionRow(n, sections[i])))
  }

  /** Non-empty text parts of the first `k` items, in order. */
  function Parts(items: seq<Item>, thinking: bool): seq<string> {
    if items == [] then [] else
    var it := items[|items| - 1];
    Parts(items[..|items| - 1], thinking) +
    if it.Thinking? && thinking && it.text != "" then [it.text]
    else if it.Text? && !thinking && it.text != "" then [it.text]
    else []
  }

  function Blob(parts: seq<string>): Option<string> {
    if parts == [] then None else Some(JoinLines(parts))
  }

  function ItemRecords(f: string, n: nat, stamp: Stamp, model: Option<string>, it: Item): Records {
    if !it.ToolCall? then NO_RECORDS else
    var tool := ToolName(it.name);
    var call := NO_RECORDS.(
      calls := [(CallKey(f, it.callId, n), CallRow(stamp, tool, it.name, model, it.arguments))]);
    if tool != "edit" then call else
    call.(stubs := [(EditKey(f, it.callId), Stub(n, stamp.timestamp, it.inputLength))],
          sections := SectionRows(f, it.callId, n, it.sections))
  }

  function ItemsRecords(f: string, n: nat, stamp: Stamp, model: Option<string>, items: seq<Item>): Records {
    if items == [] then NO_RECORDS else
    Join(ItemsRecords(f, n, stamp, model, items[..|items| - 1]), ItemRecords(f, n, stamp, model, items[|items| - 1]))
  }

  function MessageRecords(f: string, n: nat, stamp: Stamp, model: Option<string>, items: seq<Item>): Records {
    var text, thinking := Blob(Parts(items, false)), Blob(Parts(items, true));
    if text == None && thinking == None then NO_RECORDS else
    NO_RECORDS.(assistant := [(MessageKey(f, n), AssistantRow(stamp, model, text, thinking))])
  }

  /** The rows of line `n` of file `f`. */
  function LineRecords(f: string, n: nat, line: Line): Records {
    match line
    case Session(meta) => if n == 0 then NO_RECORDS.(meta := meta) else NO_RECORDS
    case Assistant(stamp, model, items) =>
      Join(ItemsRecords(f, n, stamp, model, items), MessageRecords(f, n, stamp, model, items))
    case ToolResult(stamp, callId, name, text, isError, success, warnings) =>
      var tool := ToolName(name);
      var r := NO_RECORDS.(results := [(CallKey(f, callId, n), ResultRow(stamp, tool, name, text, isError))]);
      if tool != "edit" then r else
      r.(outcomes := [(EditKey(f, callId), Outcome(success, if success then warnings else []))])
    case User(stamp, text) =>
      if text == "" then NO_RECORDS else NO_RECORDS.(user := [(MessageKey(f, n), UserRow(stamp, text))])
    case _ => NO_RECORDS
  }

  type Decoder = seq<Byte> -> Line

  /** All rows of consecutive lines, the first of which is line `start`. */
  function LinesRecords(f: string, start: nat, lines: seq<seq<Byte>>, decode: Decoder): Records {
    if lines == [] then NO_RECORDS else
    var last := |lines| - 1;
    Join(LinesRecords(f, start, lines[..last], decode), LineRecords(f, start + last, decode(lines[last])))
  }

  predicate Readable(lines: seq<seq<Byte>>, decode: Decoder) {
    forall l <- lines :: decode(l) != Fails
  }

  // ---------------------------------------------------------------- passes compose

  lemma {:induction false} JoinNothing(a: Records)
    ensures Join(a, NO_RECORDS) == a == Join(NO_RECORDS, a)
  {
    assert a.calls + [] == a.calls == [] + a.calls;
    assert a.results + [] == a.results == [] + a.results;
    assert a.assistant + [] == a.assistant == [] + a.assistant;
    assert a.user + [] == a.user == [] + a.user;
    assert a.stubs + [] == a.stubs == [] + a.stubs;
    assert a.outcomes + [] == a.outcomes == [] + a.outcomes;
    assert a.sections + [] == a.sections == [] + a.sections;
  }

  lemma {:induction false} JoinAssociates(a: Records, b: Records, c: Records)
    ensures Join(Join(a, b), c) == Join(a, Join(b, c))
  {
    assert (a.calls + b.calls) + c.calls == a.calls + (b.calls + c.calls);
    assert (a.results + b.results) + c.results == a.results + (b.results + c.results);
    assert (a.assistant + b.assistant) + c.assistant == a.assistant + (b.assistant + c.assistant);
    assert (a.user + b.user) + c.user == a.user + (b.user + c.user);
    assert (a.stubs + b.stubs) + c.stubs == a.stubs + (b.stubs + c.stubs);
    assert (a.outcomes + b.outcomes) + c.outcomes == a.outcomes + (b.outcomes + c.outcomes);
    assert (a.sections + b.sections) + c.sections == a.sections + (b.sections + c.sections);
  }

  lemma {:induction false} LinesSnoc(
    f: string, start: nat, lines: seq<seq<Byte>>, last: seq<Byte>, decode: Decoder)
    ensures LinesRecords(f, start, lines + [last], decode)
      == Join(LinesRecords(f, start, lines, decode), LineRecords(f, start + |lines|, decode(last)))
  {
    hide Join, LineRecords;
    assert (lines + [last])[..|lines|] == lines;
  }

  /** Two passes, the second continuing the line count, collect what one pass would. */
  lemma {:induction false} PassesCompose(
    f: string, start: nat, a: seq<seq<Byte>>, b: seq<seq<Byte>>, decode: Decoder)
    ensures LinesRecords(f, start, a + b, decode)
      == Join(LinesRecords(f, start, a, decode), LinesRecords(f, start + |a|, b, decode))
  {
    hide *;
    if b == [] {
      NoRecords(f, start + |a|, decode);
      JoinNothing(LinesRecords(f, start, a, decode));
      assert a + b == a;
    } else {
      var init, last := b[..|b| - 1], b[|b| - 1];
      PassesCompose(f, start, a, init, decode);
      OneMoreAfter(f, start, a, init, last, decode);
      assert b == init + [last];
    }
  }

  lemma {:induction false} NoRecords(f: string, start: nat, decode: Decoder)
    ensures LinesRecords(f, start, [], decode) == NO_RECORDS
  {
  }

  lemma {:induction false} OneMoreAfter(
    f: string, start: nat, a: seq<seq<Byte>>, init: seq<seq<Byte>>, last: seq<Byte>, decode: Decoder)
    requires LinesRecords(f, start, a + init, decode)
      == Join(LinesRecords(f, start, a, decode), LinesRecords(f, start + |a|, init, decode))
    ensures LinesRecords(f, start, a + (init + [last]), decode)
      == Join(LinesRecords(f, start, a, decode), LinesRecords(f, start + |a|, init + [last], decode))
  {
    hide *;
    assert a + (init + [last]) == (a + init) + [last];
    LinesSnoc(f, start, a + init, last, decode);
    LinesSnoc(f, start + |a|, init, last, decode);
    JoinAssociates(LinesRecords(f, start, a, decode), LinesRecords(f, start + |a|, init, decode),
      LineRecords(f, start + |a| + |init|, decode(last)));
  }

  // ---------------------------------------------------------------- every row belongs to the file

  ghost predicate KeysOf<R>(rows: seq<(Key, R)>, f: string) {
    forall i | 0 <= i < |rows| :: rows[i].0.file == f
  }

  ghost predicate Owned(r: Records, f: string) {
    && KeysOf(r.calls, f) && KeysOf(r.results, f) && KeysOf(r.assistant, f) && KeysOf(r.user, f)
    && KeysOf(r.stubs, f) && KeysOf(r.outcomes, f) && KeysOf(r.sections, f)
  }

  lemma {:induction false} ItemsOwned(f: string, n: nat, stamp: Stamp, model: Option<string>, items: seq<Item>)
    ensures Owned(ItemsRecords(f, n, stamp, model, items), f)
    ensures ItemsRecords(f, n, stamp, model, items).meta == NO_META
  {
    if items != [] { ItemsOwned(f, n, stamp, model, items[..|items| - 1]); }
  }

  lemma {:induction false} LineOwned(f: string, n: nat, line: Line)
    ensures Owned(LineRecords(f, n, line), f)
    ensures n > 0 ==> LineRecords(f, n, line).meta == NO_META
  {
    if line.Assistant? { ItemsOwned(f, n, line.stamp, line.model, line.items); }
  }

  lemma {:induction false} LinesOwned(f: string, start: nat, lines: seq<seq<Byte>>, decode: Decoder)
    ensures Owned(LinesRecords(f, start, lines, decode), f)
    ensures LinesRecords(f, start, lines, decode).meta
      == if lines == [] then NO_META else LineRecords(f, start, decode(lines[0])).meta
  {
    if lines != [] {
      var last := |lines| - 1;
      LinesOwned(f, start, lines[..last], decode);
      LineOwned(f, start + last, decode(lines[last]));
      var a, b := LinesRecords(f, start, lines[..last], decode), LineRecords(f, start + last, decode(lines[last]));
      assert LinesRecords(f, start, lines, decode) == Join(a, b);
      hide LineRecords, LinesRecords;
      JoinOwned(a, b, f);
      if last > 0 { assert lines[..last][0] == lines[0]; }
    }
  }

  lemma {:induction false} JoinOwned(a: Records, b: Records, f: string)
    requires Owned(a, f) && Owned(b, f)
    ensures Owned(Join(a, b), f)
    ensures b.meta == NO_META ==> Join(a, b).meta == a.meta
    ensures a.meta == NO_META ==> Join(a, b).meta == b.meta
  {
  }
}
