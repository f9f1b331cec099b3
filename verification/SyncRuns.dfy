/** Whole runs: every file decided against the database as it was when the run began, parsed
    apart, and written in whatever order the workers finish. */
module SyncRuns {
  import opened Bytes
  import opened Optional
  import opened SyncLines
  import opened SyncRecords
  import opened SyncTables
  import opened SyncSession
  import opened SyncTheorem

  /** The files of one run in the order they are written, and what each visit saw. */
  datatype Run = Run(order: seq<string>, visits: map<string, Visit>, now: int)

  ghost predicate ValidRun(r: Run) {
    && (forall f <- r.order :: f in r.visits && r.visits[f].now == r.now)
    && forall i, j | 0 <= i < j < |r.order| :: r.order[i] != r.order[j]
  }

  function Batches(db: Database, order: seq<string>, visits: map<string, Visit>, decode: Decoder): seq<Batch>
    requires forall f <- order :: f in visits
  {
    if order == [] then [] else
    var f := order[|order| - 1];
    Batches(db, order[..|order| - 1], visits, decode) +
    match Outcoming(db, f, visits[f], decode)
    case None => []
    case Some(b) => [b]
  }

  function AfterRun(db: Database, r: Run, decode: Decoder): Database
    requires ValidRun(r)
  {
    WriteAll(db, Batches(db, r.order, r.visits, decode), r.now)
  }

  lemma {:induction false} BatchFile(db: Database, f: string, v: Visit, decode: Decoder)
    requires Outcoming(db, f, v, decode).Some?
    ensures Outcoming(db, f, v, decode).value.file == f
    ensures Owned(Outcoming(db, f, v, decode).value.records, f)
  {
    var act := DecideAction(v.decided, Lookup(db.sessions, f), v.full).value;
    ParsedOwned(f, v.taken, v.read, act.offset, act.start, act.rebuild, decode);
  }

  lemma {:induction false} BatchesOfRun(
    db: Database, order: seq<string>, visits: map<string, Visit>, decode: Decoder)
    requires forall f <- order :: f in visits
    requires forall i, j | 0 <= i < j < |order| :: order[i] != order[j]
    ensures OneRun(Batches(db, order, visits, decode))
    ensures forall b <- Batches(db, order, visits, decode) ::
      b.file in order && Outcoming(db, b.file, visits[b.file], decode) == Some(b)
    ensures forall f <- order ::
      Outcoming(db, f, visits[f], decode).Some? ==>
      Outcoming(db, f, visits[f], decode).value in Batches(db, order, visits, decode)
  {
    if order != [] {
      var init, f := order[..|order| - 1], order[|order| - 1];
      BatchesOfRun(db, init, visits, decode);
      LastBatch(db, order, visits, decode);
      hide Batches, Outcoming, Owned, OneRun;
      assert f !in init;
      assert forall g :: g in order <==> g in init || g == f;
      if Outcoming(db, f, visits[f], decode).Some? {
        BatchFile(db, f, visits[f], decode);
        OneMoreBatch(Batches(db, init, visits, decode), Outcoming(db, f, visits[f], decode).value, init);
      }
    }
  }

  lemma {:induction false} LastBatch(db: Database, order: seq<string>, visits: map<string, Visit>, decode: Decoder)
    requires order != [] && forall f <- order :: f in visits
    ensures var init, f := order[..|order| - 1], order[|order| - 1];
      var before, o := Batches(db, init, visits, decode), Outcoming(db, f, visits[f], decode);
      Batches(db, order, visits, decode) == if o.Some? then before + [o.value] else before
  {
    hide Outcoming;
  }

  lemma {:induction false} OneMoreBatch(bs: seq<Batch>, b: Batch, files: seq<string>)
    requires OneRun(bs) && (forall x <- bs :: x.file in files)
    requires Owned(b.records, b.file) && b.file !in files
    ensures OneRun(bs + [b])
  {
    hide Owned;
  }

  /** In a run over many files each file gets what a sync of it alone would give. */
  lemma {:induction false} RunSyncsEach(db: Database, r: Run, decode: Decoder, f: string)
    requires ValidRun(r)
    ensures AgreeOn(AfterRun(db, r, decode), if f in r.order then AfterSync(db, f, r.visits[f], decode) else db, f)
  {
    var bs := Batches(db, r.order, r.visits, decode);
    BatchesOfRun(db, r.order, r.visits, decode);
    hide Batches, AgreeOn, WriteAll, Outcoming;
    if f in r.order && Outcoming(db, f, r.visits[f], decode).Some? {
      var b := Outcoming(db, f, r.visits[f], decode).value;
      BatchFile(db, f, r.visits[f], decode);
      var i :| 0 <= i < |bs| && bs[i] == b;
      RunByFile(db, bs, r.now, i);
    } else {
      Untouched(db, bs, r.now, f);
    }
  }

  /** A sync looks at nothing of other files. */
  lemma {:induction false} SyncLocal(a: Database, b: Database, f: string, v: Visit, decode: Decoder)
    requires AgreeOn(a, b, f)
    ensures AgreeOn(AfterSync(a, f, v, decode), AfterSync(b, f, v, decode), f)
  {
    assert Outcoming(a, f, v, decode) == Outcoming(b, f, v, decode);
    if Outcoming(a, f, v, decode).Some? {
      BatchFile(a, f, v, decode);
      hide Written, Slice, Lookup, Outcoming, Owned;
      OwnFile(a, b, Outcoming(a, f, v, decode).value, v.now);
    }
  }

  function AfterRuns(db: Database, runs: seq<Run>, decode: Decoder): Database
    requires forall r <- runs :: ValidRun(r)
  {
    if runs == [] then db else AfterRun(AfterRuns(db, runs[..|runs| - 1], decode), runs[|runs| - 1], decode)
  }

  /** The visits one file gets. */
  function VisitsOf(runs: seq<Run>, f: string): seq<Visit>
    requires forall r <- runs :: ValidRun(r)
  {
    if runs == [] then [] else
    var r := runs[|runs| - 1];
    assert ValidRun(r);
    VisitsOf(runs[..|runs| - 1], f) + if f in r.order then [r.visits[f]] else []
  }

  lemma {:induction false} RunsByFile(db: Database, runs: seq<Run>, decode: Decoder, f: string)
    requires forall r <- runs :: ValidRun(r)
    ensures AgreeOn(AfterRuns(db, runs, decode), AfterVisits(db, f, VisitsOf(runs, f), decode), f)
  {
    NoRuns(db, decode, f);
    if runs != [] { LastRun(db, runs, decode, f); }
    hide AgreeOn, AfterRuns, VisitsOf, AfterRun, AfterSync, AfterVisits;
    if runs == [] {
      Agrees(db, f);
    } else {
      var init, r := runs[..|runs| - 1], runs[|runs| - 1];
      var mid, vs := AfterRuns(db, init, decode), VisitsOf(init, f);
      var alone := AfterVisits(db, f, vs, decode);
      RunsByFile(db, init, decode, f);
      RunSyncsEach(mid, r, decode, f);
      if f in r.order {
        OneMoreVisit(db, f, vs, r.visits[f], decode);
        SyncLocal(mid, alone, f, r.visits[f], decode);
        AgreeChain(AfterRun(mid, r, decode), AfterSync(mid, f, r.visits[f], decode),
          AfterSync(alone, f, r.visits[f], decode), f);
      } else {
        AgreeChain(AfterRun(mid, r, decode), mid, alone, f);
      }
    }
  }

  lemma {:induction false} NoRuns(db: Database, decode: Decoder, f: string)
    ensures AfterRuns(db, [], decode) == db && VisitsOf([], f) == [] && AfterVisits(db, f, [], decode) == db
  {
  }

  lemma {:induction false} LastRun(db: Database, runs: seq<Run>, decode: Decoder, f: string)
    requires runs != [] && forall r <- runs :: ValidRun(r)
    ensures var init, r := runs[..|runs| - 1], runs[|runs| - 1];
      && ValidRun(r) && (forall q <- init :: ValidRun(q))
      && (f in r.order ==> f in r.visits)
      && AfterRuns(db, runs, decode) == AfterRun(AfterRuns(db, init, decode), r, decode)
      && VisitsOf(runs, f) == if f in r.order then VisitsOf(init, f) + [r.visits[f]] else VisitsOf(init, f)
  {
    assert runs[|runs| - 1] in runs;
  }

  lemma {:induction false} Agrees(a: Database, f: string)
    ensures AgreeOn(a, a, f)
  {
  }

  lemma {:induction false} AgreeChain(a: Database, b: Database, c: Database, f: string)
    requires AgreeOn(a, b, f) && AgreeOn(b, c, f)
    ensures AgreeOn(a, c, f)
  {
  }

  lemma {:induction false} SameShare(a: Database, b: Database, f: string, content: seq<Byte>, decode: Decoder)
    requires AgreeOn(a, b, f)
    ensures UpToDate(a, f, content, decode) == UpToDate(b, f, content, decode)
  {
    hide Slice, Ingest, Rebuilt, SplitLines, Readable, WholeLines;
    assert Lookup(a.sessions, f) == Lookup(b.sessions, f);
  }

  /** Any runs over any files, written in any order: a file that grew by whole lines ends with
      the rows, offset and line count of a full rebuild of what its last run without a line that
      raises had synced. */
  lemma {:induction false} ManyFilesManyRuns(db: Database, runs: seq<Run>, decode: Decoder, f: string)
    requires (forall r <- runs :: ValidRun(r)) && StartsOver(db, f) && GrowingRun(VisitsOf(runs, f))
    ensures var vs, next := VisitsOf(runs, f), AfterRuns(db, runs, decode);
      var k := Understood(vs, decode);
      if k == 0 then AgreeOn(next, db, f)
      else UpToDate(next, f, vs[k - 1].read, decode) && next.sessions[f].offset >= |vs[k - 1].decided.bytes|
  {
    var vs := VisitsOf(runs, f);
    var k, alone := Understood(vs, decode), AfterVisits(db, f, vs, decode);
    RunsByFile(db, runs, decode, f);
    IncrementalIsRebuild(db, f, vs, decode);
    if k > 0 { SameShare(AfterRuns(db, runs, decode), alone, f, vs[k - 1].read, decode); }
    assert Lookup(AfterRuns(db, runs, decode).sessions, f) == Lookup(alone.sessions, f);
    hide UpToDate, AfterRuns, AfterVisits, VisitsOf, SplitLines, Readable, Slice, Understood;
  }
}
