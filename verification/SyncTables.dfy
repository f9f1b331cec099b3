/** The statistics database as keyed tables, and how a pass is written into it. */
module SyncTables {
  import opened Optional
  import opened SyncRecords

  type Table<R> = map<Key, R>

  const PARSER_VERSION: nat := 6

  datatype EditRow = EditRow(
    seqNo: nat, timestamp: int, inputLength: nat, success: Option<bool>, warnings: seq<string>, parser: nat)

  datatype Rows = Rows(
    calls: Table<CallRow>, results: Table<ResultRow>, assistant: Table<AssistantRow>,
    user: Table<UserRow>, edits: Table<EditRow>, sections: Table<SectionRow>)

  const NO_ROWS: Rows := Rows(map[], map[], map[], map[], map[], map[])

  // ---------------------------------------------------------------- upserts

  /** INSERT OR REPLACE, row by row. */
  function Put<R>(t: Table<R>, rows: seq<(Key, R)>): Table<R> {
    if rows == [] then t else
    var (k, r) := rows[|rows| - 1];
    Put(t, rows[..|rows| - 1])[k := r]
  }

  /** A call's stub: keeps the outcome of a result that was paired before. */
  function WithStub(t: Table<EditRow>, k: Key, s: Stub): Table<EditRow> {
    if k in t
      then t[k := t[k].(seqNo := s.seqNo, timestamp := s.timestamp,
        inputLength := s.inputLength, parser := PARSER_VERSION)]
      else t[k := EditRow(s.seqNo, s.timestamp, s.inputLength, None, [], PARSER_VERSION)]
  }

  /** A result's outcome: keeps the stub of the call. */
  function WithOutcome(t: Table<EditRow>, k: Key, o: Outcome): Table<EditRow> {
    if k in t
      then t[k := t[k].(success := Some(o.success), warnings := o.warnings, parser := PARSER_VERSION)]
      else t[k := EditRow(0, 0, 0, Some(o.success), o.warnings, PARSER_VERSION)]
  }

  function PutStubs(t: Table<EditRow>, rows: seq<(Key, Stub)>): Table<EditRow> {
    if rows == [] then t else
    WithStub(PutStubs(t, rows[..|rows| - 1]), rows[|rows| - 1].0, rows[|rows| - 1].1)
  }

  function PutOutcomes(t: Table<EditRow>, rows: seq<(Key, Outcome)>): Table<EditRow> {
    if rows == [] then t else
    WithOutcome(PutOutcomes(t, rows[..|rows| - 1]), rows[|rows| - 1].0, rows[|rows| - 1].1)
  }

  function Ingest(t: Rows, r: Records): Rows {
    Rows(Put(t.calls, r.calls), Put(t.results, r.results), Put(t.assistant, r.assistant), Put(t.user, r.user),
         PutOutcomes(PutStubs(t.edits, r.stubs), r.outcomes), Put(t.sections, r.sections))
  }

  // ---------------------------------------------------------------- ingesting in steps

  lemma {:induction false} PutConcat<R>(t: Table<R>, a: seq<(Key, R)>, b: seq<(Key, R)>)
    ensures Put(Put(t, a), b) == Put(t, a + b)
  {
    if b == [] {
      assert a + b == a;
    } else {
      assert (a + b)[..|a + b| - 1] == a + b[..|b| - 1];
      PutConcat(t, a, b[..|b| - 1]);
    }
  }

  lemma {:induction false} PutStubsConcat(t: Table<EditRow>, a: seq<(Key, Stub)>, b: seq<(Key, Stub)>)
    ensures PutStubs(PutStubs(t, a), b) == PutStubs(t, a + b)
  {
    if b == [] {
      assert a + b == a;
    } else {
      assert (a + b)[..|a + b| - 1] == a + b[..|b| - 1];
      PutStubsConcat(t, a, b[..|b| - 1]);
    }
  }

  lemma {:induction false} PutOutcomesConcat(t: Table<EditRow>, a: seq<(Key, Outcome)>, b: seq<(Key, Outcome)>)
    ensures PutOutcomes(PutOutcomes(t, a), b) == PutOutcomes(t, a + b)
  {
    if b == [] {
      assert a + b == a;
    } else {
      assert (a + b)[..|a + b| - 1] == a + b[..|b| - 1];
      PutOutcomesConcat(t, a, b[..|b| - 1]);
    }
  }

  lemma {:induction false} StubOutcomeCommute(t: Table<EditRow>, k: Key, s: Stub, k': Key, o: Outcome)
    ensures WithStub(WithOutcome(t, k', o), k, s) == WithOutcome(WithStub(t, k, s), k', o)
  {
  }

  lemma {:induction false} StubPastOutcomes(t: Table<EditRow>, k: Key, s: Stub, o: seq<(Key, Outcome)>)
    ensures WithStub(PutOutcomes(t, o), k, s) == PutOutcomes(WithStub(t, k, s), o)
  {
    if o != [] {
      StubPastOutcomes(t, k, s, o[..|o| - 1]);
      StubOutcomeCommute(PutOutcomes(t, o[..|o| - 1]), k, s, o[|o| - 1].0, o[|o| - 1].1);
    }
  }

  /** Stubs and outcomes write different columns, so a call and its result may meet in either
      order and in different batches. */
  lemma {:induction false} StubsPastOutcomes(t: Table<EditRow>, s: seq<(Key, Stub)>, o: seq<(Key, Outcome)>)
    ensures PutStubs(PutOutcomes(t, o), s) == PutOutcomes(PutStubs(t, s), o)
  {
    if s != [] {
      StubsPastOutcomes(t, s[..|s| - 1], o);
      StubPastOutcomes(PutStubs(t, s[..|s| - 1]), s[|s| - 1].0, s[|s| - 1].1, o);
    }
  }

  /** Two batches in turn leave what one joint batch would, edit calls paired across them. */
  lemma {:induction false} IngestJoin(t: Rows, a: Records, b: Records)
    ensures Ingest(Ingest(t, a), b) == Ingest(t, Join(a, b))
  {
    PutConcat(t.calls, a.calls, b.calls);
    PutConcat(t.results, a.results, b.results);
    PutConcat(t.assistant, a.assistant, b.assistant);
    PutConcat(t.user, a.user, b.user);
    PutConcat(t.sections, a.sections, b.sections);
    StubsPastOutcomes(PutStubs(t.edits, a.stubs), b.stubs, a.outcomes);
    PutStubsConcat(t.edits, a.stubs, b.stubs);
    PutOutcomesConcat(PutStubs(t.edits, a.stubs + b.stubs), a.outcomes, b.outcomes);
    hide Put, PutStubs, PutOutcomes;
  }

  /** The last row with a key. */
  function LastFor<R>(rows: seq<(Key, R)>, k: Key): Option<R> {
    if rows == [] then None
    else if rows[|rows| - 1].0 == k then Some(rows[|rows| - 1].1)
    else LastFor(rows[..|rows| - 1], k)
  }

  lemma {:induction false} StubFor(t: Table<EditRow>, rows: seq<(Key, Stub)>, k: Key)
    ensures var u, s := PutStubs(t, rows), LastFor(rows, k);
      && (k in u <==> k in t || s.Some?)
      && (k in u && s.Some? ==>
            u[k] == EditRow(s.value.seqNo, s.value.timestamp, s.value.inputLength,
              if k in t then t[k].success else None, if k in t then t[k].warnings else [], PARSER_VERSION))
      && (k in t && s == None ==> u[k] == t[k])
  {
    if rows != [] { StubFor(t, rows[..|rows| - 1], k); }
  }

  lemma {:induction false} OutcomeFor(t: Table<EditRow>, rows: seq<(Key, Outcome)>, k: Key)
    ensures var u, o := PutOutcomes(t, rows), LastFor(rows, k);
      && (k in u <==> k in t || o.Some?)
      && (k in u && o.Some? ==>
            u[k] == EditRow(if k in t then t[k].seqNo else 0, if k in t then t[k].timestamp else 0,
              if k in t then t[k].inputLength else 0, Some(o.value.success), o.value.warnings, PARSER_VERSION))
      && (k in t && o == None ==> u[k] == t[k])
  {
    if rows != [] { OutcomeFor(t, rows[..|rows| - 1], k); }
  }

  /** A freshly ingested edit table joins calls and results: one row for each edit that has a call
      or a result, the call's columns from its last stub, the result's from its last outcome. */
  lemma {:induction false} EditsPaired(stubs: seq<(Key, Stub)>, outcomes: seq<(Key, Outcome)>, k: Key)
    ensures var u, s, o := PutOutcomes(PutStubs(map[], stubs), outcomes), LastFor(stubs, k), LastFor(outcomes, k);
      && (k in u <==> s.Some? || o.Some?)
      && (k in u ==>
            && (if s.Some? then u[k].seqNo == s.value.seqNo && u[k].timestamp == s.value.timestamp
                  && u[k].inputLength == s.value.inputLength
                else u[k].seqNo == u[k].timestamp == u[k].inputLength == 0)
            && (if o.Some? then u[k].success == Some(o.value.success) && u[k].warnings == o.value.warnings
                else u[k].success == None && u[k].warnings == []))
  {
    hide PutStubs, PutOutcomes, LastFor;
    StubFor(map[], stubs, k);
    OutcomeFor(PutStubs(map[], stubs), outcomes, k);
  }

  // ---------------------------------------------------------------- one file's share of the tables

  function Only<R>(t: Table<R>, f: string): Table<R> {
    map k | k in t && k.file == f :: t[k]
  }

  /** DELETE ... WHERE session_file = f. */
  function Without<R>(t: Table<R>, f: string): Table<R> {
    map k | k in t && k.file != f :: t[k]
  }

  function Slice(t: Rows, f: string): Rows {
    Rows(Only(t.calls, f), Only(t.results, f), Only(t.assistant, f), Only(t.user, f),
      Only(t.edits, f), Only(t.sections, f))
  }

  function Purge(t: Rows, f: string): Rows {
    Rows(Without(t.calls, f), Without(t.results, f), Without(t.assistant, f), Without(t.user, f),
         Without(t.edits, f), Without(t.sections, f))
  }

  lemma {:induction false} PutOnly<R>(t: Table<R>, rows: seq<(Key, R)>, f: string, g: string)
    requires KeysOf(rows, f)
    ensures Only(Put(t, rows), g) == if g == f then Put(Only(t, f), rows) else Only(t, g)
  {
    if rows != [] { PutOnly(t, rows[..|rows| - 1], f, g); }
  }

  lemma {:induction false} PutStubsOnly(t: Table<EditRow>, rows: seq<(Key, Stub)>, f: string, g: string)
    requires KeysOf(rows, f)
    ensures Only(PutStubs(t, rows), g) == if g == f then PutStubs(Only(t, f), rows) else Only(t, g)
  {
    if rows != [] { PutStubsOnly(t, rows[..|rows| - 1], f, g); }
  }

  lemma {:induction false} PutOutcomesOnly(t: Table<EditRow>, rows: seq<(Key, Outcome)>, f: string, g: string)
    requires KeysOf(rows, f)
    ensures Only(PutOutcomes(t, rows), g) == if g == f then PutOutcomes(Only(t, f), rows) else Only(t, g)
  {
    if rows != [] { PutOutcomesOnly(t, rows[..|rows| - 1], f, g); }
  }

  /** A file's batch touches that file's rows only. */
  lemma {:induction false} IngestSlice(t: Rows, r: Records, f: string, g: string)
    requires Owned(r, f)
    ensures Slice(Ingest(t, r), g) == if g == f then Ingest(Slice(t, f), r) else Slice(t, g)
  {
    PutOnly(t.calls, r.calls, f, g);
    PutOnly(t.results, r.results, f, g);
    PutOnly(t.assistant, r.assistant, f, g);
    PutOnly(t.user, r.user, f, g);
    PutOnly(t.sections, r.sections, f, g);
    PutStubsOnly(t.edits, r.stubs, f, g);
    PutOutcomesOnly(PutStubs(t.edits, r.stubs), r.outcomes, f, g);
    hide Put, PutStubs, PutOutcomes, Only;
  }

  lemma {:induction false} WithoutOnly<R>(t: Table<R>, f: string, g: string)
    ensures Only(Without(t, f), g) == if g == f then map[] else Only(t, g)
  {
  }

  lemma {:induction false} PurgeSlice(t: Rows, f: string, g: string)
    ensures Slice(Purge(t, f), g) == if g == f then NO_ROWS else Slice(t, g)
  {
    WithoutOnly(t.calls, f, g);
    WithoutOnly(t.results, f, g);
    WithoutOnly(t.assistant, f, g);
    WithoutOnly(t.user, f, g);
    WithoutOnly(t.edits, f, g);
    WithoutOnly(t.sections, f, g);
    hide Only, Without;
  }

  lemma {:induction false} OnlyAgree<R>(t: Table<R>, u: Table<R>)
    requires forall f: string :: Only(t, f) == Only(u, f)
    ensures t == u
  {
    forall k | k in t || k in u ensures k in t && k in u && t[k] == u[k] {
      assert Only(t, k.file) == Only(u, k.file);
      assert k in t <==> k in Only(t, k.file);
      assert k in u <==> k in Only(u, k.file);
      assert Only(t, k.file)[k] == Only(u, k.file)[k];
    }
  }

  /** Tables with the same share for every file are the same. */
  lemma {:induction false} SlicesAgree(t: Rows, u: Rows)
    requires forall f: string :: Slice(t, f) == Slice(u, f)
    ensures t == u
  {
    forall f: string
      ensures Only(t.calls, f) == Only(u.calls, f) && Only(t.results, f) == Only(u.results, f)
      ensures Only(t.assistant, f) == Only(u.assistant, f) && Only(t.user, f) == Only(u.user, f)
      ensures Only(t.edits, f) == Only(u.edits, f) && Only(t.sections, f) == Only(u.sections, f)
    {
      assert Slice(t, f) == Slice(u, f);
    }
    hide Only;
    OnlyAgree(t.calls, u.calls);
    OnlyAgree(t.results, u.results);
    OnlyAgree(t.assistant, u.assistant);
    OnlyAgree(t.user, u.user);
    OnlyAgree(t.edits, u.edits);
    OnlyAgree(t.sections, u.sections);
  }
}
