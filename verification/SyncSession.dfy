/** One sync of one file: decide, parse from the stored offset, write. */
module SyncSession {
  import opened Bytes
  import opened Optional
  import opened TextLines
  import opened SyncLines
  import opened SyncRecords
  import opened SyncTables

  // ---------------------------------------------------------------- the pass over a file

  /** The lists a pass fills. */
  class SessionRecords {
    var meta: Meta
    var calls: seq<(Key, CallRow)>
    var results: seq<(Key, ResultRow)>
    var assistant: seq<(Key, AssistantRow)>
    var user: seq<(Key, UserRow)>
    var stubs: seq<(Key, Stub)>
    var outcomes: seq<(Key, Outcome)>
    var sections: seq<(Key, SectionRow)>

    constructor ()
      ensures Collected() == NO_RECORDS
    {
      meta, calls, results, assistant, user := NO_META, [], [], [], [];
      stubs, outcomes, sections := [], [], [];
    }

    function Collected(): Records
      reads this
    {
      Records(meta, calls, results, assistant, user, stubs, outcomes, sections)
    }

    method IngestToolCall(f: string, n: nat, stamp: Stamp, model: Option<string>, it: Item)
      requires it.ToolCall?
      modifies this
      ensures Collected() == Join(old(Collected()), ItemRecords(f, n, stamp, model, it))
    {
      JoinNothing(Collected());
      var tool := ToolName(it.name);
      calls := calls + [(CallKey(f, it.callId, n), CallRow(stamp, tool, it.name, model, it.arguments))];
      if tool == "edit" {
        stubs := stubs + [(EditKey(f, it.callId), Stub(n, stamp.timestamp, it.inputLength))];
        ghost var before := sections;
        ghost var rows := SectionRows(f, it.callId, n, it.sections);
        for i := 0 to |it.sections|
          modifies this`sections
          invariant sections == before + rows[..i]
        {
          sections := sections + [(SectionKey(f, it.callId, i), SectionRow(n, it.sections[i]))];
        }
      }
    }

    method IngestAssistant(f: string, n: nat, stamp: Stamp, model: Option<string>, items: seq<Item>)
      modifies this
      ensures Collected() == Join(old(Collected()), LineRecords(f, n, Assistant(stamp, model, items)))
    {
      hide ItemsRecords, Parts, JoinLines;
      ghost var start := Collected();
      var textParts, thinkingParts: seq<string> := [], [];
      JoinNothing(start);
      NoItems(f, n, stamp, model);
      for i := 0 to |items|
        invariant textParts == Parts(items[..i], false) && thinkingParts == Parts(items[..i], true)
        invariant Collected() == Join(start, ItemsRecords(f, n, stamp, model, items[..i]))
      {
        var it := items[i];
        OneMoreItem(f, n, stamp, model, items, i);
        JoinAssociates(start, ItemsRecords(f, n, stamp, model, items[..i]), ItemRecords(f, n, stamp, model, it));
        JoinNothing(Collected());
        match it {
          case ToolCall(_, _, _, _, _) => IngestToolCall(f, n, stamp, model, it);
          case Thinking(v) => if v != "" { thinkingParts := thinkingParts + [v]; }
          case Text(v) => if v != "" { textParts := textParts + [v]; }
          case OtherItem =>
        }
      }
      assert items[..|items|] == items;
      var text, thinking := Blob(textParts), Blob(thinkingParts);
      JoinAssociates(start, ItemsRecords(f, n, stamp, model, items), MessageRecords(f, n, stamp, model, items));
      JoinNothing(Collected());
      if text != None || thinking != None {
        assistant := assistant + [(MessageKey(f, n), AssistantRow(stamp, model, text, thinking))];
      }
    }

    /** One decoded line. */
    method IngestLine(f: string, n: nat, line: Line)
      modifies this
      ensures Collected() == Join(old(Collected()), LineRecords(f, n, line))
    {
      JoinNothing(Collected());
      match line {
        case Session(m) => if n == 0 { meta := CoalesceMeta(m, meta); }
        case Assistant(stamp, model, items) => IngestAssistant(f, n, stamp, model, items);
        case ToolResult(stamp, callId, name, text, isError, success, warnings) =>
          var tool := ToolName(name);
          results := results + [(CallKey(f, callId, n), ResultRow(stamp, tool, name, text, isError))];
          if tool == "edit" {
            outcomes := outcomes + [(EditKey(f, callId), Outcome(success, if success then warnings else []))];
          }
        case User(stamp, text) =>
          if text != "" { user := user + [(MessageKey(f, n), UserRow(stamp, text))]; }
        case _ =>
      }
    }
  }

  lemma {:induction false} NoItems(f: string, n: nat, stamp: Stamp, model: Option<string>)
    ensures ItemsRecords(f, n, stamp, model, []) == NO_RECORDS && Parts([], true) == [] == Parts([], false)
  {
  }

  lemma {:induction false} OneMoreItem(f: string, n: nat, stamp: Stamp, model: Option<string>, items: seq<Item>, i: nat)
    requires i < |items|
    ensures ItemsRecords(f, n, stamp, model, items[..i + 1])
      == Join(ItemsRecords(f, n, stamp, model, items[..i]), ItemRecords(f, n, stamp, model, items[i]))
    ensures var it := items[i];
      && Parts(items[..i + 1], true) == Parts(items[..i], true)
        + (if it.Thinking? && it.text != "" then [it.text] else [])
      && Parts(items[..i + 1], false) == Parts(items[..i], false)
        + (if it.Text? && it.text != "" then [it.text] else [])
  {
    assert items[..i + 1][..i] == items[..i];
  }

  datatype Snapshot = Snapshot(mtime: int, bytes: seq<Byte>)

  /** What one pass hands to the writer. */
  datatype Batch = Batch(
    file: string, rebuild: bool, records: Records, mtime: int, size: nat, offset: nat, lineCount: nat)

  function Rest(bs: seq<Byte>, offset: nat): seq<Byte> {
    if offset <= |bs| then bs[offset..] else []
  }

  function Parsed(
    f: string, stat: Snapshot, read: seq<Byte>, offset: nat, start: nat, rebuild: bool, decode: Decoder): Option<Batch>
  {
    var lines := SplitLines(Rest(read, offset));
    if !Readable(lines, decode) then None else
    Some(Batch(f, rebuild, LinesRecords(f, start, lines, decode), stat.mtime, |stat.bytes|,
      offset + |Rest(read, offset)|, start + |lines|))
  }

  lemma {:induction false} NoLines(f: string, start: nat, decode: Decoder)
    ensures LinesRecords(f, start, [], decode) == NO_RECORDS && TotalBytes([]) == 0 && Readable([], decode)
  {
  }

  lemma {:induction false} OneMoreLine(f: string, start: nat, lines: seq<seq<Byte>>, i: nat, decode: Decoder)
    requires i < |lines|
    ensures LinesRecords(f, start, lines[..i + 1], decode)
      == Join(LinesRecords(f, start, lines[..i], decode), LineRecords(f, start + i, decode(lines[i])))
    ensures TotalBytes(lines[..i + 1]) == TotalBytes(lines[..i]) + |lines[i]|
    ensures Readable(lines[..i + 1], decode) <==> Readable(lines[..i], decode) && decode(lines[i]) != Fails
    ensures decode(lines[i]) == Fails ==> !Readable(lines, decode)
  {
    assert lines[..i + 1][..i] == lines[..i] && lines[..i + 1][i] == lines[i];
    assert lines[i] in lines && lines[i] in lines[..i + 1];
    assert forall l :: l in lines[..i + 1] <==> l in lines[..i] || l == lines[i];
  }

  /** Reads from `offset` on; `stat` was taken before the read, so the file may have grown. */
  method ParseFile(
    f: string, stat: Snapshot, read: seq<Byte>, startOffset: nat, startSeq: nat, rebuild: bool, decode: Decoder)
    returns (batch: Option<Batch>)
    ensures batch == Parsed(f, stat, read, startOffset, startSeq, rebuild, decode)
  {
    hide LineRecords, LinesRecords, SplitLines, TotalBytes, Join, Readable;
    NoLines(f, startSeq, decode);
    var rec := new SessionRecords();
    var lines := SplitLines(Rest(read, startOffset));
    var n, offset := startSeq, startOffset;
    for i := 0 to |lines|
      invariant fresh(rec) && n == startSeq + i && Readable(lines[..i], decode)
      invariant offset == startOffset + TotalBytes(lines[..i])
      invariant rec.Collected() == LinesRecords(f, startSeq, lines[..i], decode)
    {
      var raw := lines[i];
      OneMoreLine(f, startSeq, lines, i, decode);
      offset := offset + |raw|;
      var line := decode(raw);
      if line == Fails { return None; }
      rec.IngestLine(f, n, line);
      n := n + 1;
    }
    assert lines[..|lines|] == lines;
    SplitTotal(Rest(read, startOffset));
    batch := Some(Batch(f, rebuild, rec.Collected(), stat.mtime, |stat.bytes|, offset, n));
  }

  // ---------------------------------------------------------------- the database

  datatype SessionRow = SessionRow(
    meta: Meta, mtime: int, size: nat, offset: nat, lineCount: nat, syncedAt: int, parser: nat)

  datatype Database = Database(rows: Rows, sessions: map<string, SessionRow>)

  function SessionAfter(sessions: map<string, SessionRow>, b: Batch, now: int): SessionRow {
    SessionRow(
      if b.file in sessions then CoalesceMeta(b.records.meta, sessions[b.file].meta) else b.records.meta,
      b.mtime, b.size, b.offset, b.lineCount, now, PARSER_VERSION)
  }

  function Written(db: Database, b: Batch, now: int): Database {
    Database(
      Ingest(if b.rebuild then Purge(db.rows, b.file) else db.rows, b.records),
      db.sessions[b.file := SessionAfter(db.sessions, b, now)])
  }

  method ExecuteMany<R>(t: Table<R>, rows: seq<(Key, R)>) returns (u: Table<R>)
    ensures u == Put(t, rows)
  {
    u := t;
    for i := 0 to |rows|
      invariant u == Put(t, rows[..i])
    {
      assert rows[..i + 1][..i] == rows[..i];
      u := u[rows[i].0 := rows[i].1];
    }
    assert rows[..|rows|] == rows;
  }

  method UpsertStubs(t: Table<EditRow>, rows: seq<(Key, Stub)>) returns (u: Table<EditRow>)
    ensures u == PutStubs(t, rows)
  {
    u := t;
    for i := 0 to |rows|
      invariant u == PutStubs(t, rows[..i])
    {
      assert rows[..i + 1][..i] == rows[..i];
      u := WithStub(u, rows[i].0, rows[i].1);
    }
    assert rows[..|rows|] == rows;
  }

  method UpsertOutcomes(t: Table<EditRow>, rows: seq<(Key, Outcome)>) returns (u: Table<EditRow>)
    ensures u == PutOutcomes(t, rows)
  {
    u := t;
    for i := 0 to |rows|
      invariant u == PutOutcomes(t, rows[..i])
    {
      assert rows[..i + 1][..i] == rows[..i];
      u := WithOutcome(u, rows[i].0, rows[i].1);
    }
    assert rows[..|rows|] == rows;
  }

  datatype Action = Action(rebuild: bool, offset: nat, start: nat)

  /** Skip, continue from the stored offset, or start over. */
  function DecideAction(stat: Snapshot, prev: Option<SessionRow>, full: bool): Option<Action> {
    var size := |stat.bytes|;
    if full || prev == None then Some(Action(true, 0, 0)) else
    var p := prev.value;
    if p.parser < PARSER_VERSION then Some(Action(true, 0, 0))
    else if size == p.size && stat.mtime <= p.mtime then None
    else if size < p.offset then Some(Action(true, 0, 0))
    else if size == p.offset && stat.mtime > p.mtime then Some(Action(true, 0, 0))
    else Some(Action(false, p.offset, p.lineCount))
  }

  function Lookup(sessions: map<string, SessionRow>, f: string): Option<SessionRow> {
    if f in sessions then Some(sessions[f]) else None
  }

  /** One visit to a file during a run: the states of the file when the run decides, when the
      parser takes its size, and when it reads. */
  datatype Visit = Visit(decided: Snapshot, taken: Snapshot, read: seq<Byte>, full: bool, now: int)

  function Outcoming(db: Database, f: string, v: Visit, decode: Decoder): Option<Batch> {
    match DecideAction(v.decided, Lookup(db.sessions, f), v.full)
    case None => None
    case Some(act) => Parsed(f, v.taken, v.read, act.offset, act.start, act.rebuild, decode)
  }

  function AfterSync(db: Database, f: string, v: Visit, decode: Decoder): Database {
    match Outcoming(db, f, v, decode)
    case None => db
    case Some(b) => Written(db, b, v.now)
  }

  class StatsDb {
    var rows: Rows
    var sessions: map<string, SessionRow>

    constructor ()
      ensures Contents() == Database(NO_ROWS, map[])
    {
      rows, sessions := NO_ROWS, map[];
    }

    function Contents(): Database
      reads this
    {
      Database(rows, sessions)
    }

    /** One transaction. */
    method WriteRecords(b: Batch, now: int)
      modifies this
      ensures Contents() == Written(old(Contents()), b, now)
    {
      hide Put, PutStubs, PutOutcomes, Purge;
      if b.rebuild {
        rows := Purge(rows, b.file);
      }
      var calls := ExecuteMany(rows.calls, b.records.calls);
      var results := ExecuteMany(rows.results, b.records.results);
      var assistant := ExecuteMany(rows.assistant, b.records.assistant);
      var user := ExecuteMany(rows.user, b.records.user);
      var stubbed := UpsertStubs(rows.edits, b.records.stubs);
      var edits := UpsertOutcomes(stubbed, b.records.outcomes);
      var sections := ExecuteMany(rows.sections, b.records.sections);
      rows := Rows(calls, results, assistant, user, edits, sections);
      sessions := sessions[b.file := SessionAfter(sessions, b, now)];
    }

    method SyncFile(f: string, v: Visit, decode: Decoder)
      modifies this
      ensures Contents() == AfterSync(old(Contents()), f, v, decode)
    {
      hide Written, Parsed;
      var decision := DecideAction(v.decided, Lookup(sessions, f), v.full);
      if decision == None { return; }
      var act := decision.value;
      var batch := ParseFile(f, v.taken, v.read, act.offset, act.start, act.rebuild, decode);
      if batch.Some? {
        WriteRecords(batch.value, v.now);
      }
    }
  }
}
