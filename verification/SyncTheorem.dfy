/** Incremental syncs against one full rebuild. */
module SyncTheorem {
  import opened Bytes
  import opened Optional
  import opened SyncLines
  import opened SyncRecords
  import opened SyncTables
  import opened SyncSession

  // ---------------------------------------------------------------- what a synced file looks like

  /** A full rebuild of `bytes`, on its own. */
  function Rebuilt(f: string, bytes: seq<Byte>, decode: Decoder): Records {
    LinesRecords(f, 0, SplitLines(bytes), decode)
  }

  /** The rows, the offset and the line count of `f` are those of a full rebuild of the first
      `offset` bytes of `content`. */
  ghost predicate UpToDate(db: Database, f: string, content: seq<Byte>, decode: Decoder) {
    f in db.sessions && (
      var row := db.sessions[f];
      && row.parser >= PARSER_VERSION && row.size <= row.offset <= |content|
      && WholeLines(content[..row.offset]) && Readable(SplitLines(content[..row.offset]), decode)
      && row.lineCount == |SplitLines(content[..row.offset])|
      && Slice(db.rows, f) == Ingest(NO_ROWS, Rebuilt(f, content[..row.offset], decode)))
  }

  /** The header fields of `f` are those of the first line. */
  ghost predicate HeaderKept(db: Database, f: string, content: seq<Byte>, decode: Decoder) {
    f in db.sessions && db.sessions[f].offset <= |content|
    && db.sessions[f].meta == Rebuilt(f, content[..db.sessions[f].offset], decode).meta
  }

  /** The next run will start over: the file is unknown or was parsed by an older parser. */
  predicate StartsOver(db: Database, f: string) {
    f in db.sessions ==> db.sessions[f].parser < PARSER_VERSION
  }

  ghost predicate ReadyFor(db: Database, f: string, content: seq<Byte>, decode: Decoder) {
    StartsOver(db, f) || UpToDate(db, f, content, decode)
  }

  // ---------------------------------------------------------------- one visit

  lemma {:induction false} PrefixOf(a: seq<Byte>, b: seq<Byte>, n: nat)
    requires a <= b && n <= |a|
    ensures a[..n] == b[..n]
  {
  }

  lemma {:induction false} UpToDateGrows(db: Database, f: string, a: seq<Byte>, b: seq<Byte>, decode: Decoder)
    requires a <= b
    ensures UpToDate(db, f, a, decode) ==> UpToDate(db, f, b, decode)
    ensures HeaderKept(db, f, a, decode) ==> HeaderKept(db, f, b, decode)
  {
    if f in db.sessions && db.sessions[f].offset <= |a| { PrefixOf(a, b, db.sessions[f].offset); }
  }

  /** Starting over: whatever the tables held for the file is replaced. */
  lemma {:induction false} StartedOver(db: Database, f: string, v: Visit, decode: Decoder)
    requires v.taken.bytes <= v.read && WholeLines(v.read) && Readable(SplitLines(v.read), decode)
    ensures var b := Parsed(f, v.taken, v.read, 0, 0, true, decode);
      && b.Some? && UpToDate(Written(db, b.value, v.now), f, v.read, decode)
      && (f !in db.sessions ==> HeaderKept(Written(db, b.value, v.now), f, v.read, decode))
  {
    assert v.read[0..] == v.read == v.read[..|v.read|];
    var r := Rebuilt(f, v.read, decode);
    LinesOwned(f, 0, SplitLines(v.read), decode);
    hide LinesRecords, SplitLines, Ingest;
    PurgeSlice(db.rows, f, f);
    IngestSlice(Purge(db.rows, f), r, f, f);
  }

  /** A pass over the whole file is a pass over its first `n` bytes, then one over the rest. */
  lemma {:induction false} CutAt(f: string, content: seq<Byte>, n: nat, decode: Decoder)
    requires n <= |content| && WholeLines(content[..n])
    ensures var done, rest := SplitLines(content[..n]), SplitLines(content[n..]);
      && SplitLines(content) == done + rest
      && (Readable(SplitLines(content), decode) <==> Readable(done, decode) && Readable(rest, decode))
      && Rebuilt(f, content, decode)
        == Join(Rebuilt(f, content[..n], decode), LinesRecords(f, |done|, rest, decode))
      && Owned(LinesRecords(f, |done|, rest, decode), f)
  {
    hide LinesRecords, SplitLines, Owned, Join;
    var done, rest := SplitLines(content[..n]), SplitLines(content[n..]);
    assert content == content[..n] + content[n..];
    SplitConcat(content[..n], content[n..]);
    PassesCompose(f, 0, done, rest, decode);
    LinesOwned(f, |done|, rest, decode);
  }

  /** Continuing: the rows of the new lines join those already there. */
  lemma {:induction false} Continued(db: Database, f: string, v: Visit, decode: Decoder)
    requires UpToDate(db, f, v.read, decode)
    requires v.taken.bytes <= v.read && WholeLines(v.read) && Readable(SplitLines(v.read), decode)
    ensures var row := db.sessions[f];
      var b := Parsed(f, v.taken, v.read, row.offset, row.lineCount, false, decode);
      b.Some? && UpToDate(Written(db, b.value, v.now), f, v.read, decode)
  {
    hide LinesRecords, SplitLines, Ingest, Slice, Rebuilt, Readable, Owned, Join, CoalesceMeta;
    var row := db.sessions[f];
    CutAt(f, v.read, row.offset, decode);
    assert v.read[..|v.read|] == v.read;
    var r := LinesRecords(f, row.lineCount, SplitLines(v.read[row.offset..]), decode);
    IngestSlice(db.rows, r, f, f);
    IngestJoin(NO_ROWS, Rebuilt(f, v.read[..row.offset], decode), r);
  }

  /** Only line 0 carries a header. */
  lemma {:induction false} HeaderOf(f: string, content: seq<Byte>, n: nat, decode: Decoder)
    requires n <= |content| && WholeLines(content[..n])
    ensures var first, whole := Rebuilt(f, content[..n], decode).meta, Rebuilt(f, content, decode).meta;
      && whole == CoalesceMeta(LinesRecords(f, |SplitLines(content[..n])|,
        SplitLines(content[n..]), decode).meta, first)
      && whole == CoalesceMeta(whole, first)
  {
    var done, rest := SplitLines(content[..n]), SplitLines(content[n..]);
    CutAt(f, content, n, decode);
    LinesOwned(f, 0, done, decode);
    LinesOwned(f, |done|, rest, decode);
    if done != [] && rest != [] { LineOwned(f, |done|, decode(rest[0])); }
    hide LinesRecords, SplitLines, LineRecords;
  }

  lemma {:induction false} HeaderStays(
    db: Database, f: string, v: Visit, offset: nat, start: nat, rebuild: bool, decode: Decoder)
    requires UpToDate(db, f, v.read, decode) && HeaderKept(db, f, v.read, decode) && WholeLines(v.read)
    requires Parsed(f, v.taken, v.read, offset, start, rebuild, decode).Some?
    requires if rebuild then offset == 0 == start
      else offset == db.sessions[f].offset && start == db.sessions[f].lineCount
    ensures HeaderKept(Written(db, Parsed(f, v.taken, v.read, offset, start, rebuild, decode).value,
      v.now), f, v.read, decode)
  {
    hide LinesRecords, SplitLines, Ingest, Slice, Readable, Purge, CoalesceMeta;
    assert v.read[..|v.read|] == v.read == v.read[0..];
    HeaderOf(f, v.read, db.sessions[f].offset, decode);
  }

  /** A visit to a file that only grows, by whole lines. */
  ghost predicate Growing(v: Visit) {
    v.decided.bytes <= v.taken.bytes <= v.read && WholeLines(v.read)
  }

  /** One visit keeps the file up to date and catches up with what the run saw, unless a line
      raises: then it changes nothing. */
  lemma {:induction false} VisitStep(db: Database, f: string, before: seq<Byte>, v: Visit, decode: Decoder)
    requires ReadyFor(db, f, before, decode) && before <= v.decided.bytes && Growing(v)
    ensures !Readable(SplitLines(v.read), decode) ==> AfterSync(db, f, v, decode) == db
    ensures ReadyFor(AfterSync(db, f, v, decode), f, v.read, decode)
    ensures Readable(SplitLines(v.read), decode) ==>
      var next := AfterSync(db, f, v, decode);
      && UpToDate(next, f, v.read, decode) && next.sessions[f].offset >= |v.decided.bytes|
      && (f !in db.sessions || (UpToDate(db, f, before, decode) && HeaderKept(db, f, before, decode))
        ==> HeaderKept(next, f, v.read, decode))
  {
    SeenIsPrefix(before, v);
    UpToDateGrows(db, f, before, v.read, decode);
    hide *;
    if Readable(SplitLines(v.read), decode) {
      ReadableStep(db, f, before, v, decode);
      ReadyIf(AfterSync(db, f, v, decode), f, v.read, decode);
    } else {
      ReadyLater(db, f, before, v.read, decode);
      UnreadableStep(db, f, v, decode);
    }
  }

  lemma {:induction false} ReadyIf(db: Database, f: string, content: seq<Byte>, decode: Decoder)
    ensures UpToDate(db, f, content, decode) ==> ReadyFor(db, f, content, decode)
  {
  }

  lemma {:induction false} ReadyLater(db: Database, f: string, a: seq<Byte>, b: seq<Byte>, decode: Decoder)
    requires ReadyFor(db, f, a, decode) && a <= b
    ensures ReadyFor(db, f, b, decode)
  {
    hide UpToDate, HeaderKept;
    UpToDateGrows(db, f, a, b, decode);
  }

  /** A read with a line that raises writes nothing: what is stored was readable, so the line is
      among those read now. */
  lemma {:induction false} UnreadableStep(db: Database, f: string, v: Visit, decode: Decoder)
    requires ReadyFor(db, f, v.read, decode) && !Readable(SplitLines(v.read), decode)
    ensures AfterSync(db, f, v, decode) == db
  {
    hide Readable, SplitLines, WholeLines, Slice, Ingest, Rebuilt, LinesRecords;
    Decisions(db, f, v);
    assert v.read[0..] == v.read;
    if UpToDate(db, f, v.read, decode) { CutAt(f, v.read, db.sessions[f].offset, decode); }
  }

  lemma {:induction false} ReadableStep(db: Database, f: string, before: seq<Byte>, v: Visit, decode: Decoder)
    requires ReadyFor(db, f, before, decode) && before <= v.decided.bytes && Growing(v)
    requires Readable(SplitLines(v.read), decode)
    ensures var next := AfterSync(db, f, v, decode);
      && UpToDate(next, f, v.read, decode) && next.sessions[f].offset >= |v.decided.bytes|
      && (f !in db.sessions || (UpToDate(db, f, before, decode) && HeaderKept(db, f, before, decode))
        ==> HeaderKept(next, f, v.read, decode))
  {
    hide UpToDate, HeaderKept, Parsed, Written, DecideAction, Readable, WholeLines, SplitLines, StartsOver;
    SeenIsPrefix(before, v);
    UpToDateGrows(db, f, before, v.read, decode);
    Decisions(db, f, v);
    var decision := DecideAction(v.decided, Lookup(db.sessions, f), v.full);
    if decision == None {
      Skips(db, f, v, decode);
    } else if decision.value.rebuild {
      RebuildStep(db, f, v, decode);
    } else {
      ContinueStep(db, f, v, decode);
    }
  }

  lemma {:induction false} SeenIsPrefix(before: seq<Byte>, v: Visit)
    requires before <= v.decided.bytes && v.decided.bytes <= v.taken.bytes <= v.read
    ensures before <= v.read && |v.decided.bytes| <= |v.read|
  {
    assert before == v.decided.bytes[..|before|] == v.taken.bytes[..|before|] == v.read[..|before|];
  }

  lemma {:induction false} Decisions(db: Database, f: string, v: Visit)
    ensures match DecideAction(v.decided, Lookup(db.sessions, f), v.full)
      case None => !StartsOver(db, f)
      case Some(act) =>
        if act.rebuild then act.offset == 0 == act.start
        else !StartsOver(db, f) && act.offset == db.sessions[f].offset && act.start == db.sessions[f].lineCount
  {
  }

  lemma {:induction false} RebuildStep(db: Database, f: string, v: Visit, decode: Decoder)
    requires ReadyFor(db, f, v.read, decode) && Growing(v) && Readable(SplitLines(v.read), decode)
    ensures var b := Parsed(f, v.taken, v.read, 0, 0, true, decode);
      && b.Some? && UpToDate(Written(db, b.value, v.now), f, v.read, decode)
      && Written(db, b.value, v.now).sessions[f].offset == |v.read|
      && (f !in db.sessions || (UpToDate(db, f, v.read, decode) && HeaderKept(db, f, v.read, decode))
        ==> HeaderKept(Written(db, b.value, v.now), f, v.read, decode))
  {
    hide UpToDate, HeaderKept, Parsed, Written, Readable;
    StartedOver(db, f, v, decode);
    Reaches(db, f, v, 0, 0, true, decode);
    if UpToDate(db, f, v.read, decode) && HeaderKept(db, f, v.read, decode) {
      HeaderStays(db, f, v, 0, 0, true, decode);
    }
  }

  lemma {:induction false} ContinueStep(db: Database, f: string, v: Visit, decode: Decoder)
    requires UpToDate(db, f, v.read, decode) && Growing(v) && Readable(SplitLines(v.read), decode)
    ensures var row := db.sessions[f];
      var b := Parsed(f, v.taken, v.read, row.offset, row.lineCount, false, decode);
      && b.Some? && UpToDate(Written(db, b.value, v.now), f, v.read, decode)
      && Written(db, b.value, v.now).sessions[f].offset == |v.read|
      && (HeaderKept(db, f, v.read, decode) ==> HeaderKept(Written(db, b.value, v.now), f, v.read, decode))
  {
    var row := db.sessions[f];
    Continued(db, f, v, decode);
    Reaches(db, f, v, row.offset, row.lineCount, false, decode);
    hide HeaderKept, Parsed, Written, Readable, Slice, Ingest, Rebuilt, SplitLines;
    if HeaderKept(db, f, v.read, decode) {
      HeaderStays(db, f, v, row.offset, row.lineCount, false, decode);
    }
  }

  lemma {:induction false} Reaches(
    db: Database, f: string, v: Visit, offset: nat, start: nat, rebuild: bool, decode: Decoder)
    requires offset <= |v.read| && Parsed(f, v.taken, v.read, offset, start, rebuild, decode).Some?
    ensures var next := Written(db, Parsed(f, v.taken, v.read, offset, start, rebuild, decode).value, v.now);
      f in next.sessions && next.sessions[f].offset == |v.read|
  {
  }

  lemma {:induction false} Skips(db: Database, f: string, v: Visit, decode: Decoder)
    requires UpToDate(db, f, v.read, decode)
    requires DecideAction(v.decided, Lookup(db.sessions, f), v.full) == None
    ensures db.sessions[f].offset >= |v.decided.bytes|
  {
  }

  /** A file that shrank, or changed in place without growing, is read again from the start: the
      rows of its old content do not survive, unless a line of the new content raises. Then
      nothing changes. */
  lemma {:induction false} RewriteIsRebuild(db: Database, f: string, v: Visit, decode: Decoder)
    requires f in db.sessions && Growing(v)
    requires var row, size := db.sessions[f], |v.decided.bytes|;
      && size <= row.offset && (size == row.offset ==> v.decided.mtime > row.mtime)
      && (size == row.size ==> v.decided.mtime > row.mtime)
    ensures var next := AfterSync(db, f, v, decode);
      if Readable(SplitLines(v.read), decode)
      then UpToDate(next, f, v.read, decode) && next.sessions[f].offset == |v.read|
      else next == db
  {
    if Readable(SplitLines(v.read), decode) {
      StartedOver(db, f, v, decode);
      Reaches(db, f, v, 0, 0, true, decode);
    }
    assert v.read[0..] == v.read;
    hide UpToDate, Readable, SplitLines, Written, LinesRecords;
    assert DecideAction(v.decided, Lookup(db.sessions, f), v.full) == Some(Action(true, 0, 0));
  }

  // ---------------------------------------------------------------- any number of visits

  function AfterVisits(db: Database, f: string, vs: seq<Visit>, decode: Decoder): Database {
    if vs == [] then db else AfterSync(AfterVisits(db, f, vs[..|vs| - 1], decode), f, vs[|vs| - 1], decode)
  }

  lemma {:induction false} OneMoreVisit(db: Database, f: string, vs: seq<Visit>, v: Visit, decode: Decoder)
    ensures AfterVisits(db, f, vs + [v], decode) == AfterSync(AfterVisits(db, f, vs, decode), f, v, decode)
  {
    assert (vs + [v])[..|vs|] == vs;
  }

  ghost predicate GrowingRun(vs: seq<Visit>) {
    && (forall i | 0 <= i < |vs| :: Growing(vs[i]))
    && forall i | 0 < i < |vs| :: vs[i - 1].read <= vs[i].decided.bytes
  }

  /** How many visits there are up to the last one whose read has no line that raises. */
  function Understood(vs: seq<Visit>, decode: Decoder): (k: nat)
    ensures k <= |vs|
  {
    if vs == [] then 0
    else if Readable(SplitLines(vs[|vs| - 1].read), decode) then |vs|
    else Understood(vs[..|vs| - 1], decode)
  }

  ghost predicate Synced(db: Database, f: string, v: Visit, decode: Decoder, next: Database) {
    && UpToDate(next, f, v.read, decode) && next.sessions[f].offset >= |v.decided.bytes|
    && (f !in db.sessions ==> HeaderKept(next, f, v.read, decode))
  }

  /** Any sequence of syncs over a file growing by whole lines leaves what one rebuild of the
      synced part leaves, and that part reaches at least what the last run saw that met no line
      that raises. From such a line on nothing changes any more. Whatever was stored for an unknown
      or stale file does not matter. */
  lemma {:induction false} IncrementalIsRebuild(db: Database, f: string, vs: seq<Visit>, decode: Decoder)
    requires StartsOver(db, f) && GrowingRun(vs)
    ensures var k, next := Understood(vs, decode), AfterVisits(db, f, vs, decode);
      && (forall i | 0 <= i < |vs| :: Readable(SplitLines(vs[i].read), decode) <==> i < k)
      && next == AfterVisits(db, f, vs[..k], decode)
      && if k == 0 then next == db else Synced(db, f, vs[k - 1], decode, next)
    ensures vs != [] ==> ReadyFor(AfterVisits(db, f, vs, decode), f, vs[|vs| - 1].read, decode)
    decreases |vs|
  {
    hide AfterSync, UpToDate, HeaderKept, SplitLines, AfterVisits, GrowingRun, Growing, Readable, StartsOver, ReadyFor,
      Understood, Synced;
    NoVisits(db, f, decode);
    NoneUnderstood(decode);
    if vs == [] {
      assert vs[..0] == [];
    } else {
      var n := |vs| - 1;
      var last, init := vs[n], vs[..n];
      assert vs == init + [last];
      OneMoreVisit(db, f, init, last, decode);
      LastOfRun(vs);
      IncrementalIsRebuild(db, f, init, decode);
      OneMoreUnderstood(init, last, decode);
      var mid := AfterVisits(db, f, init, decode);
      if n == 0 {
        NothingBefore(db, f, decode);
        VisitStep(db, f, [], last, decode);
        SyncedFirst(db, f, last, decode);
      } else {
        var prev := init[n - 1];
        if Readable(SplitLines(last.read), decode) { ReadablePrefix(prev.read, last.read, decode); }
        VisitStep(mid, f, prev.read, last, decode);
        SyncedNext(db, mid, f, prev, last, decode);
      }
      assert vs[..|vs|] == vs;
      var k := Understood(init, decode);
      assert init[..k] == vs[..k];
    }
  }

  lemma {:induction false} NoneUnderstood(decode: Decoder)
    ensures Understood([], decode) == 0
  {
  }

  lemma {:induction false} OneMoreUnderstood(vs: seq<Visit>, v: Visit, decode: Decoder)
    ensures Understood(vs + [v], decode)
      == if Readable(SplitLines(v.read), decode) then |vs| + 1 else Understood(vs, decode)
  {
    assert (vs + [v])[..|vs|] == vs;
  }

  lemma {:induction false} NothingBefore(db: Database, f: string, decode: Decoder)
    requires StartsOver(db, f)
    ensures ReadyFor(db, f, [], decode)
  {
  }

  lemma {:induction false} SyncedFirst(db: Database, f: string, v: Visit, decode: Decoder)
    requires var next := AfterSync(db, f, v, decode);
      Readable(SplitLines(v.read), decode) ==>
      && UpToDate(next, f, v.read, decode) && next.sessions[f].offset >= |v.decided.bytes|
      && (f !in db.sessions ==> HeaderKept(next, f, v.read, decode))
    ensures Readable(SplitLines(v.read), decode) ==> Synced(db, f, v, decode, AfterSync(db, f, v, decode))
  {
    hide UpToDate, HeaderKept, AfterSync, Readable, SplitLines;
  }

  lemma {:induction false} SyncedNext(db: Database, mid: Database, f: string, prev: Visit, v: Visit, decode: Decoder)
    requires Readable(SplitLines(v.read), decode) ==> Synced(db, f, prev, decode, mid)
    requires var next := AfterSync(mid, f, v, decode);
      Readable(SplitLines(v.read), decode) ==>
      && UpToDate(next, f, v.read, decode) && next.sessions[f].offset >= |v.decided.bytes|
      && (UpToDate(mid, f, prev.read, decode) && HeaderKept(mid, f, prev.read, decode)
        ==> HeaderKept(next, f, v.read, decode))
    ensures Readable(SplitLines(v.read), decode) ==> Synced(db, f, v, decode, AfterSync(mid, f, v, decode))
  {
    hide UpToDate, HeaderKept, AfterSync, Readable, SplitLines;
  }

  lemma {:induction false} NoVisits(db: Database, f: string, decode: Decoder)
    ensures AfterVisits(db, f, [], decode) == db
  {
  }

  lemma {:induction false} LastOfRun(vs: seq<Visit>)
    requires vs != [] && GrowingRun(vs)
    ensures var n := |vs| - 1;
      && GrowingRun(vs[..n]) && Growing(vs[n])
      && (n > 0 ==> WholeLines(vs[n - 1].read) && vs[n - 1].read <= vs[n].decided.bytes <= vs[n].read)
  {
    var n := |vs| - 1;
    SeenIsPrefix([], vs[n]);
    assert vs[n].decided.bytes <= vs[n].read by {
      SeenIsPrefix(vs[n].decided.bytes, vs[n]);
    }
  }

  lemma {:induction false} ReadablePrefix(a: seq<Byte>, b: seq<Byte>, decode: Decoder)
    requires a <= b && WholeLines(a) && Readable(SplitLines(b), decode)
    ensures Readable(SplitLines(a), decode)
  {
    SplitConcat(a, b[|a|..]);
    assert b == a + b[|a|..];
  }

  /** The same rows, offset and line count for one file. */
  ghost predicate SameTables(a: Database, b: Database, f: string) {
    && Slice(a.rows, f) == Slice(b.rows, f) && (f in a.sessions <==> f in b.sessions)
    && (f in a.sessions ==>
      a.sessions[f].offset == b.sessions[f].offset && a.sessions[f].lineCount == b.sessions[f].lineCount)
  }

  const EMPTY: Database := Database(NO_ROWS, map[])

  /** A rebuild of the whole file into an empty database. */
  lemma {:induction false} FreshRebuild(f: string, v: Visit, decode: Decoder)
    requires Growing(v)
    ensures var anew := AfterSync(EMPTY, f, v, decode);
      if Readable(SplitLines(v.read), decode)
      then UpToDate(anew, f, v.read, decode) && HeaderKept(anew, f, v.read, decode)
        && anew.sessions[f].offset == |v.read|
      else anew == EMPTY
  {
    assert ReadyFor(EMPTY, f, [], decode);
    VisitStep(EMPTY, f, [], v, decode);
    hide UpToDate, HeaderKept, Readable, SplitLines, Written, Parsed;
    if Readable(SplitLines(v.read), decode) {
      StartedOver(EMPTY, f, v, decode);
      Reaches(EMPTY, f, v, 0, 0, true, decode);
    }
  }

  /** When nothing is appended while the last run works, the tables are those of a rebuild of the
      whole file exactly when no line of it raises, or nothing was ever stored. */
  lemma {:induction false} QuietRunIsRebuild(db: Database, f: string, vs: seq<Visit>, decode: Decoder)
    requires StartsOver(db, f) && vs != [] && GrowingRun(vs)
    requires vs[|vs| - 1].decided.bytes == vs[|vs| - 1].read
    ensures var last, next := vs[|vs| - 1], AfterVisits(db, f, vs, decode);
      var anew, readable := AfterSync(EMPTY, f, last, decode), Readable(SplitLines(last.read), decode);
      && (SameTables(next, anew, f) <==>
        readable || (Understood(vs, decode) == 0 && f !in db.sessions && Slice(db.rows, f) == NO_ROWS))
      && (readable && f !in db.sessions ==>
        f in next.sessions && f in anew.sessions && next.sessions[f].meta == anew.sessions[f].meta)
  {
    var last, next := vs[|vs| - 1], AfterVisits(db, f, vs, decode);
    hide AfterVisits, SplitLines, Understood, Readable, AfterSync, Slice, StartsOver, GrowingRun;
    IncrementalIsRebuild(db, f, vs, decode);
    LastOfRun(vs);
    FreshRebuild(f, last, decode);
    NothingSliced(f);
    var anew := AfterSync(EMPTY, f, last, decode);
    if Readable(SplitLines(last.read), decode) {
      assert Understood(vs, decode) == |vs|;
      SameWhenWhole(next, anew, f, last.read, decode);
    }
  }

  lemma {:induction false} NothingSliced(f: string)
    ensures Slice(NO_ROWS, f) == NO_ROWS
  {
  }

  lemma {:induction false} SameWhenWhole(a: Database, b: Database, f: string, content: seq<Byte>, decode: Decoder)
    requires UpToDate(a, f, content, decode) && a.sessions[f].offset >= |content|
    requires UpToDate(b, f, content, decode) && b.sessions[f].offset >= |content|
    ensures SameTables(a, b, f)
    ensures HeaderKept(a, f, content, decode) && HeaderKept(b, f, content, decode)
      ==> a.sessions[f].meta == b.sessions[f].meta
  {
    hide Slice, Ingest, Rebuilt, SplitLines, Readable, WholeLines;
  }

  /** A decoder that raises on one line. */
  function Picky(line: seq<Byte>): Line {
    if line == [91, 93, 10] then Fails else User(Stamp(None, 0), "hello")
  }

  /** A good line, then a line that raises: the row of the first line stays, and no later run
      changes anything, while a rebuild of the whole file would store nothing. */
  lemma {:induction false} BadLineStopsSync(f: string)
    ensures var good, bad: seq<Byte> := [123, 125, 10], [91, 93, 10];
      var seen := (bytes: seq<Byte>, time: int) => Visit(Snapshot(time, bytes), Snapshot(time, bytes),
        bytes, false, time);
      var vs := [seen(good, 1), seen(good + bad, 2)];
      var next, anew := AfterVisits(EMPTY, f, vs, Picky), AfterSync(EMPTY, f, vs[1], Picky);
      && GrowingRun(vs) && anew == EMPTY && !SameTables(next, anew, f)
      && f in next.sessions && next.sessions[f].offset == |good|
  {
    var good, bad: seq<Byte> := [123, 125, 10], [91, 93, 10];
    var v := Visit(Snapshot(1, good), Snapshot(1, good), good, false, 1);
    var w := Visit(Snapshot(2, good + bad), Snapshot(2, good + bad), good + bad, false, 2);
    var vs := [v, w];
    OneLine(good);
    OneLine(bad);
    SplitConcat(good, bad);
    assert SplitLines(good + bad) == [good, bad] && bad in [good, bad];
    assert !Readable(SplitLines(w.read), Picky) && Readable(SplitLines(v.read), Picky);
    assert GrowingRun(vs);
    assert vs[..1] == [v];
    NoVisits(EMPTY, f, Picky);
    OneMoreVisit(EMPTY, f, [], v, Picky);
    assert [] + [v] == [v];
    hide SplitLines, AfterVisits, AfterSync, Readable, UpToDate;
    QuietRunIsRebuild(EMPTY, f, vs, Picky);
    IncrementalIsRebuild(EMPTY, f, vs, Picky);
    FreshRebuild(f, w, Picky);
    FreshRebuild(f, v, Picky);
  }

  lemma {:induction false} OneLine(line: seq<Byte>)
    requires |line| == 3 && line[2] == NEWLINE && line[0] != NEWLINE && line[1] != NEWLINE
    ensures SplitLines(line) == [line] && WholeLines(line)
  {
    assert line[1..][1..] == [line[2]];
    assert LineLength(line[1..]) == 2;
    assert line[..3] == line && line[3..] == [];
  }

  // ---------------------------------------------------------------- different files

  /** A batch leaves the rows and the session of every other file alone. */
  lemma {:induction false} OtherFiles(db: Database, b: Batch, now: int, g: string)
    requires Owned(b.records, b.file) && g != b.file
    ensures Slice(Written(db, b, now).rows, g) == Slice(db.rows, g)
    ensures Lookup(Written(db, b, now).sessions, g) == Lookup(db.sessions, g)
  {
    hide Ingest, Purge, Slice;
    PurgeSlice(db.rows, b.file, g);
    IngestSlice(if b.rebuild then Purge(db.rows, b.file) else db.rows, b.records, b.file, g);
  }

  /** What a batch leaves for its own file depends on that file's rows and session only. */
  lemma {:induction false} OwnFile(db: Database, other: Database, b: Batch, now: int)
    requires Owned(b.records, b.file) && Slice(db.rows, b.file) == Slice(other.rows, b.file)
    requires Lookup(db.sessions, b.file) == Lookup(other.sessions, b.file)
    ensures Slice(Written(db, b, now).rows, b.file) == Slice(Written(other, b, now).rows, b.file)
    ensures Lookup(Written(db, b, now).sessions, b.file) == Lookup(Written(other, b, now).sessions, b.file)
  {
    hide Ingest, Purge, Slice;
    var f := b.file;
    PurgeSlice(db.rows, f, f);
    PurgeSlice(other.rows, f, f);
    IngestSlice(if b.rebuild then Purge(db.rows, f) else db.rows, b.records, f, f);
    IngestSlice(if b.rebuild then Purge(other.rows, f) else other.rows, b.records, f, f);
  }

  /** The records of a parsed file belong to it. */
  lemma {:induction false} ParsedOwned(
    f: string, stat: Snapshot, read: seq<Byte>, offset: nat, start: nat, rebuild: bool, decode: Decoder)
    requires Parsed(f, stat, read, offset, start, rebuild, decode).Some?
    ensures var b := Parsed(f, stat, read, offset, start, rebuild, decode).value; b.file == f && Owned(b.records, f)
  {
    LinesOwned(f, start, SplitLines(Rest(read, offset)), decode);
  }

  function WriteAll(db: Database, bs: seq<Batch>, now: int): Database {
    if bs == [] then db else Written(WriteAll(db, bs[..|bs| - 1], now), bs[|bs| - 1], now)
  }

  /** The batches of one run: one per file, each holding rows of its own file. */
  ghost predicate OneRun(bs: seq<Batch>) {
    && (forall i | 0 <= i < |bs| :: Owned(bs[i].records, bs[i].file))
    && forall i, j | 0 <= i < j < |bs| :: bs[i].file != bs[j].file
  }

  ghost predicate AgreeOn(a: Database, b: Database, g: string) {
    Slice(a.rows, g) == Slice(b.rows, g) && Lookup(a.sessions, g) == Lookup(b.sessions, g)
  }

  lemma {:induction false} Untouched(db: Database, bs: seq<Batch>, now: int, g: string)
    requires OneRun(bs) && forall b <- bs :: b.file != g
    ensures AgreeOn(WriteAll(db, bs, now), db, g)
  {
    if bs != [] {
      var init, b := bs[..|bs| - 1], bs[|bs| - 1];
      Untouched(db, init, now, g);
      hide Written, Slice, Owned, Lookup;
      OtherFiles(WriteAll(db, init, now), b, now, g);
    }
  }

  /** After a run each file is as if only its own batch had been written. */
  lemma {:induction false} RunByFile(db: Database, bs: seq<Batch>, now: int, i: nat)
    requires OneRun(bs) && i < |bs|
    ensures AgreeOn(WriteAll(db, bs, now), Written(db, bs[i], now), bs[i].file)
  {
    var init, b := bs[..|bs| - 1], bs[|bs| - 1];
    var mid := WriteAll(db, init, now);
    if i == |bs| - 1 {
      Untouched(db, init, now, b.file);
      hide Written, Slice, Owned, Lookup;
      OwnFile(mid, db, b, now);
    } else {
      RunByFile(db, init, now, i);
      hide Written, Slice, Owned, Lookup;
      OtherFiles(mid, b, now, bs[i].file);
    }
  }

  /** The order in which workers finish does not show in the database. */
  lemma {:induction false} RunOrderIrrelevant(db: Database, one: seq<Batch>, other: seq<Batch>, now: int)
    requires OneRun(one) && OneRun(other) && forall b :: b in one <==> b in other
    ensures WriteAll(db, one, now) == WriteAll(db, other, now)
  {
    var a, b := WriteAll(db, one, now), WriteAll(db, other, now);
    forall g: string ensures AgreeOn(a, b, g) { SameForFile(db, one, other, now, g); }
    AgreeEverywhere(a, b);
  }

  lemma {:induction false} SameForFile(db: Database, one: seq<Batch>, other: seq<Batch>, now: int, g: string)
    requires OneRun(one) && OneRun(other) && forall b :: b in one <==> b in other
    ensures AgreeOn(WriteAll(db, one, now), WriteAll(db, other, now), g)
  {
    if i :| 0 <= i < |one| && one[i].file == g {
      assert one[i] in other;
      var j :| 0 <= j < |other| && other[j] == one[i];
      RunByFile(db, one, now, i);
      RunByFile(db, other, now, j);
    } else {
      Untouched(db, one, now, g);
      Untouched(db, other, now, g);
    }
    hide WriteAll, Written, Slice, Lookup, OneRun;
  }

  lemma {:induction false} AgreeEverywhere(a: Database, b: Database)
    requires forall g: string :: AgreeOn(a, b, g)
    ensures a == b
  {
    forall g: string ensures Slice(a.rows, g) == Slice(b.rows, g) { assert AgreeOn(a, b, g); }
    SlicesAgree(a.rows, b.rows);
    forall g: string
      ensures g in a.sessions <==> g in b.sessions
      ensures g in a.sessions ==> a.sessions[g] == b.sessions[g]
    {
      assert AgreeOn(a, b, g);
    }
    assert a.sessions == b.sessions;
  }

  // ---------------------------------------------------------------- a stale header

  predicate Covers<T>(newer: Option<T>, older: Option<T>) {
    older.Some? ==> newer.Some?
  }

  /** A rebuild replaces every row of the file but merges its header: fields the new file lacks
      keep their old values. It equals a first ingest exactly when no field is lost. */
  lemma {:induction false} RebuildHeader(db: Database, b: Batch, now: int)
    requires b.rebuild && b.file in db.sessions
    ensures Written(db, b, now).sessions[b.file].meta == b.records.meta <==>
      (var newer, older := b.records.meta, db.sessions[b.file].meta;
       && Covers(newer.startedAt, older.startedAt) && Covers(newer.title, older.title)
       && Covers(newer.cwd, older.cwd) && Covers(newer.uuid, older.uuid)
       && Covers(newer.version, older.version))
  {
  }

  // ---------------------------------------------------------------- what is visited again

  /** After a visit that stored something: the next one leaves the file alone exactly when it has the
      size it had and is not newer. Else a file longer than what was read is read on from there, and
      one that is not starts over, unless it has just that length and is not newer. */
  lemma {:induction false} NextVisit(db: Database, f: string, v: Visit, again: Visit, decode: Decoder)
    requires Outcoming(db, f, v, decode).Some? && !again.full
    ensures f in AfterSync(db, f, v, decode).sessions
    ensures var next, b, size := AfterSync(db, f, v, decode), Outcoming(db, f, v, decode).value, |again.decided.bytes|;
      var same := size == |v.taken.bytes| && again.decided.mtime <= v.taken.mtime;
      var act := DecideAction(again.decided, Lookup(next.sessions, f), false);
      && (same <==> act == None)
      && (same ==> AfterSync(next, f, again, decode) == next)
      && next.sessions[f].syncedAt == v.now && next.sessions[f].parser == PARSER_VERSION
      && (!same && size > b.offset ==> act == Some(Action(false, b.offset, b.lineCount)))
      && (!same && size <= b.offset && (size < b.offset || again.decided.mtime > v.taken.mtime) ==>
            act == Some(Action(true, 0, 0)))
  {
    hide LinesRecords, SplitLines, Ingest, Readable, Purge;
  }
}
