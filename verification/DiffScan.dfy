/** Reading a unified diff of changelogs: added and removed items with their places. */
module DiffScan {
  import opened ChangelogText

  /** A diff line; a line of the form `@@ -a,b +c,d @@` comes with its new-side start. */
  datatype RawLine = HunkHeader(newStart: nat) | Raw(text: string)

  /** A hunk is named by its path and its number within the file. */
  datatype HunkRef = HunkRef(path: string, index: int)

  datatype AddedItem = AddedItem(path: string, lineNumber: nat, text: string, hunk: HunkRef)

  datatype RemovedItem = RemovedItem(path: string, text: string, hunk: HunkRef)

  datatype Scanner = Scanner(
    path: string, newLine: nat, hunkIndex: int,
    added: seq<AddedItem>, removed: seq<RemovedItem>, releaseHunks: set<HunkRef>)

  const START: Scanner := Scanner("", 0, -1, [], [], {})

  predicate StartsWith(s: string, prefix: string) {
    prefix <= s
  }

  predicate IsListItem(text: string) {
    StartsWith(DropSpaces(text), "- ")
  }

  /** An item is a dash and a space, indented or not. */
  lemma {:induction false} ListItemIs(text: string)
    ensures IsListItem(text) <==> exists n :: 0 <= n <= |text| && IsBlank(text[..n]) && StartsWith(text[n..], "- ")
  {
    var a := DroppedIs(text);
    assert text[..|a|] == a && text[|a|..] == DropSpaces(text);
    if n :| 0 <= n <= |text| && IsBlank(text[..n]) && StartsWith(text[n..], "- ") {
      assert text[n..][..2] == "- " && text[n..][0] == '-';
      DropBlank(text[..n], text[n..]);
      assert text == text[..n] + text[n..];
    }
  }

  function Step(s: Scanner, line: RawLine): Scanner {
    match line
    case HunkHeader(newStart) => s.(newLine := newStart, hunkIndex := s.hunkIndex + 1)
    case Raw(raw) =>
      if StartsWith(raw, "+++ b/") then s.(path := raw[6..])
      else if StartsWith(raw, "diff --git ") then s.(path := "", hunkIndex := -1)
      else if s.path == "" || s.hunkIndex < 0 || raw == "" then s
      else
        var text, hunk := raw[1..], HunkRef(s.path, s.hunkIndex);
        if raw[0] == '+' then
          s.(newLine := s.newLine + 1,
             releaseHunks := if StartsWith(raw, "+## [") then s.releaseHunks + {hunk} else s.releaseHunks,
             added := if IsListItem(text) then s.added + [AddedItem(s.path, s.newLine, text, hunk)] else s.added)
        else if raw[0] == '-' then
          if IsListItem(text) then s.(removed := s.removed + [RemovedItem(s.path, text, hunk)]) else s
        else if raw[0] == ' ' then s.(newLine := s.newLine + 1)
        else s
  }

  function Scan(s: Scanner, lines: seq<RawLine>): Scanner {
    if lines == [] then s else Step(Scan(s, lines[..|lines| - 1]), lines[|lines| - 1])
  }

  lemma {:induction false} ScanConcat(s: Scanner, a: seq<RawLine>, b: seq<RawLine>)
    ensures Scan(s, a + b) == Scan(Scan(s, a), b)
  {
    if b == [] {
      assert a + b == a;
    } else {
      assert (a + b)[..|a + b| - 1] == a + b[..|b| - 1];
      ScanConcat(s, a, b[..|b| - 1]);
    }
  }

  lemma {:induction false} ScanOne(s: Scanner, line: RawLine)
    ensures Scan(s, [line]) == Step(s, line)
  {
    assert [line][..0] == [];
  }

  /** The scanning loop. */
  method ScanDiff(lines: seq<RawLine>) returns (s: Scanner)
    ensures s == Scan(START, lines)
  {
    hide IsListItem;
    var path, newLine: nat, hunkIndex := "", 0, -1;
    var added: seq<AddedItem>, removed: seq<RemovedItem> := [], [];
    var releaseHunks: set<HunkRef> := {};
    for i := 0 to |lines|
      invariant Scanner(path, newLine, hunkIndex, added, removed, releaseHunks) == Scan(START, lines[..i])
    {
      assert lines[..i + 1][..i] == lines[..i];
      match lines[i] {
        case HunkHeader(newStart) =>
          newLine, hunkIndex := newStart, hunkIndex + 1;
        case Raw(raw) =>
          if StartsWith(raw, "+++ b/") { path := raw[6..]; continue; }
          if StartsWith(raw, "diff --git ") { path, hunkIndex := "", -1; continue; }
          if path == "" || hunkIndex < 0 || raw == "" { continue; }
          var text, hunk := raw[1..], HunkRef(path, hunkIndex);
          if raw[0] == '+' {
            if StartsWith(raw, "+## [") { releaseHunks := releaseHunks + {hunk}; }
            if IsListItem(text) { added := added + [AddedItem(path, newLine, text, hunk)]; }
            newLine := newLine + 1;
          } else if raw[0] == '-' {
            if IsListItem(text) { removed := removed + [RemovedItem(path, text, hunk)]; }
          } else if raw[0] == ' ' {
            newLine := newLine + 1;
          }
      }
    }
    assert lines[..|lines|] == lines;
    s := Scanner(path, newLine, hunkIndex, added, removed, releaseHunks);
  }

  // ---------------------------------------------------------------- well-formed diffs

  datatype DiffLine = Plus(text: string) | Minus(text: string) | IDENTITY(text: string)

  datatype Hunk = Hunk(newStart: nat, lines: seq<DiffLine>)

  datatype FileDiff = FileDiff(path: string, hunks: seq<Hunk>)

  function RawOf(d: DiffLine): RawLine {
    match d
    case Plus(t) => Raw("+" + t)
    case Minus(t) => Raw("-" + t)
    case IDENTITY(t) => Raw(" " + t)
  }

  function RawLines(ds: seq<DiffLine>): seq<RawLine> {
    if ds == [] then [] else RawLines(ds[..|ds| - 1]) + [RawOf(ds[|ds| - 1])]
  }

  function HunkLines(h: Hunk): seq<RawLine> {
    [HunkHeader(h.newStart)] + RawLines(h.lines)
  }

  function HunksLines(hs: seq<Hunk>): seq<RawLine> {
    if hs == [] then [] else HunksLines(hs[..|hs| - 1]) + HunkLines(hs[|hs| - 1])
  }

  function FileLines(f: FileDiff): seq<RawLine> {
    [Raw("diff --git a/" + f.path + " b/" + f.path), Raw("--- a/" + f.path), Raw("+++ b/" + f.path)]
      + HunksLines(f.hunks)
  }

  function DiffLines(fs: seq<FileDiff>): seq<RawLine> {
    if fs == [] then [] else DiffLines(fs[..|fs| - 1]) + FileLines(fs[|fs| - 1])
  }

  /** Lines of the new file among the first lines of a hunk. */
  function NewSide(ds: seq<DiffLine>): nat {
    if ds == [] then 0 else NewSide(ds[..|ds| - 1]) + if ds[|ds| - 1].Minus? then 0 else 1
  }

  /** The items a hunk adds, each at its line of the new file. */
  function AddedIn(path: string, index: int, start: nat, ds: seq<DiffLine>): seq<AddedItem> {
    if ds == [] then [] else
    var init, last := ds[..|ds| - 1], ds[|ds| - 1];
    AddedIn(path, index, start, init) +
    if last.Plus? && IsListItem(last.text)
      then [AddedItem(path, start + NewSide(init), last.text, HunkRef(path, index))] else []
  }

  function RemovedIn(path: string, index: int, ds: seq<DiffLine>): seq<RemovedItem> {
    if ds == [] then [] else
    var last := ds[|ds| - 1];
    RemovedIn(path, index, ds[..|ds| - 1]) +
    if last.Minus? && IsListItem(last.text) then [RemovedItem(path, last.text, HunkRef(path, index))] else []
  }

  predicate AddsRelease(ds: seq<DiffLine>) {
    exists d <- ds :: d.Plus? && StartsWith(d.text, "## [")
  }

  /** A hunk that adds a release heading counts as one, and one that counts adds a line that starts so. */
  lemma {:induction false} ReleaseHunk(ds: seq<DiffLine>)
    ensures (exists d <- ds :: d.Plus? && IsReleaseHeading(d.text)) ==> AddsRelease(ds)
    ensures AddsRelease(ds) ==> exists d <- ds, rest: string :: d.Plus? && d.text == "## [" + rest
  {
    if AddsRelease(ds) {
      var d :| d in ds && d.Plus? && StartsWith(d.text, "## [");
      assert d.text == "## [" + d.text[4..];
    }
  }

  /** An added line that would read as a file header of the diff itself. */
  predicate LooksLikeHeader(d: DiffLine) {
    d.Plus? && StartsWith(d.text, "++ b/")
  }

  predicate PlainHunk(h: Hunk) {
    forall d <- h.lines :: !LooksLikeHeader(d)
  }

  predicate PlainFile(f: FileDiff) {
    f.path != "" && forall h <- f.hunks :: PlainHunk(h)
  }

  lemma {:induction false} RawStarts(c: char, t: string)
    ensures ([c] + t)[0] == c && ([c] + t)[1..] == t
    ensures c == '+' ==> (StartsWith([c] + t, "+++ b/") <==> StartsWith(t, "++ b/"))
    ensures c == '+' ==> (StartsWith([c] + t, "+## [") <==> StartsWith(t, "## ["))
    ensures c != '+' ==> !StartsWith([c] + t, "+++ b/")
    ensures c != 'd' ==> !StartsWith([c] + t, "diff --git ")
  {
    var s := [c] + t;
    assert s[0] == c && forall i | 0 < i < |s| :: s[i] == t[i - 1];
    if c == '+' {
      assert "+++ b/"[1..] == "++ b/" && "+## ["[1..] == "## [";
      if StartsWith(s, "+++ b/") { assert s[..6][1..] == t[..5]; }
      if StartsWith(t, "++ b/") { assert s[..6] == ['+'] + t[..5]; }
      if StartsWith(s, "+## [") { assert s[..5][1..] == t[..4]; }
      if StartsWith(t, "## [") { assert s[..5] == ['+'] + t[..4]; }
    }
    assert "+++ b/"[0] == '+' && "diff --git "[0] == 'd';
  }

  /** The scanner after some lines of a hunk. */
  function AfterBody(s: Scanner, ds: seq<DiffLine>): Scanner {
    Scanner(s.path, s.newLine + NewSide(ds), s.hunkIndex,
      s.added + AddedIn(s.path, s.hunkIndex, s.newLine, ds), s.removed + RemovedIn(s.path, s.hunkIndex, ds),
      s.releaseHunks + if AddsRelease(ds) then {HunkRef(s.path, s.hunkIndex)} else {})
  }

  lemma {:induction false} BodyParts(s: Scanner, ds: seq<DiffLine>)
    requires ds != []
    ensures var init, d, hunk := ds[..|ds| - 1], ds[|ds| - 1], HunkRef(s.path, s.hunkIndex);
      && RawLines(ds) == RawLines(init) + [RawOf(d)]
      && (AddsRelease(ds) <==> AddsRelease(init) || (d.Plus? && StartsWith(d.text, "## [")))
      && NewSide(ds) == NewSide(init) + (if d.Minus? then 0 else 1)
      && AddedIn(s.path, s.hunkIndex, s.newLine, ds) == AddedIn(s.path, s.hunkIndex, s.newLine, init)
        + (if d.Plus? && IsListItem(d.text)
           then [AddedItem(s.path, s.newLine + NewSide(init), d.text, hunk)] else [])
      && RemovedIn(s.path, s.hunkIndex, ds) == RemovedIn(s.path, s.hunkIndex, init)
        + (if d.Minus? && IsListItem(d.text) then [RemovedItem(s.path, d.text, hunk)] else [])
  {
    var init, d := ds[..|ds| - 1], ds[|ds| - 1];
    assert ds == init + [d];
    assert forall x :: x in ds <==> x in init || x == d;
  }

  lemma {:induction false} BodyStep(t: Scanner, d: DiffLine)
    requires t.path != "" && t.hunkIndex >= 0 && !LooksLikeHeader(d)
    ensures Step(t, RawOf(d)) == Scanner(t.path, t.newLine + (if d.Minus? then 0 else 1), t.hunkIndex,
      t.added + (if d.Plus? && IsListItem(d.text)
        then [AddedItem(t.path, t.newLine, d.text, HunkRef(t.path, t.hunkIndex))] else []),
      t.removed + (if d.Minus? && IsListItem(d.text)
        then [RemovedItem(t.path, d.text, HunkRef(t.path, t.hunkIndex))] else []),
      t.releaseHunks + if d.Plus? && StartsWith(d.text, "## [") then {HunkRef(t.path, t.hunkIndex)} else {})
  {
    RawStarts(if d.Plus? then '+' else if d.Minus? then '-' else ' ', d.text);
    hide IsListItem;
  }

  lemma {:induction false} AfterBodyNext(s: Scanner, ds: seq<DiffLine>)
    requires s.path != "" && s.hunkIndex >= 0 && ds != [] && !LooksLikeHeader(ds[|ds| - 1])
    ensures AfterBody(s, ds) == Step(AfterBody(s, ds[..|ds| - 1]), RawOf(ds[|ds| - 1]))
  {
    var init, d := ds[..|ds| - 1], ds[|ds| - 1];
    BodyParts(s, ds);
    BodyStep(AfterBody(s, init), d);
    hide Step, AddsRelease, AddedIn, RemovedIn, NewSide, IsListItem, StartsWith, RawOf;
  }

  lemma {:induction false} AfterNothing(s: Scanner)
    ensures AfterBody(s, []) == s
  {
    assert s.added + [] == s.added && s.removed + [] == s.removed;
  }

  /** Inside a hunk: each line of a hunk moves the scanner as it should. */
  lemma {:induction false} ScanBody(s: Scanner, ds: seq<DiffLine>)
    requires s.path != "" && s.hunkIndex >= 0 && forall d <- ds :: !LooksLikeHeader(d)
    ensures Scan(s, RawLines(ds)) == AfterBody(s, ds)
  {
    hide Scan, RawOf, Step, AfterBody, LooksLikeHeader;
    AfterNothing(s);
    if ds == [] {
      ScanNothing(s);
    } else {
      var init, d := ds[..|ds| - 1], ds[|ds| - 1];
      ScanBody(s, init);
      ScanConcat(s, RawLines(init), [RawOf(d)]);
      ScanOne(Scan(s, RawLines(init)), RawOf(d));
      AfterBodyNext(s, ds);
    }
  }

  lemma {:induction false} ScanNothing(s: Scanner)
    ensures Scan(s, []) == s
  {
  }

  /** No line of a hunk is counted twice, and a line that reads as a header is not counted. */
  lemma {:induction false} StepLags(t: Scanner, d: DiffLine)
    ensures Step(t, RawOf(d)).newLine <= t.newLine + if d.Minus? then 0 else 1
    ensures LooksLikeHeader(d) ==> Step(t, RawOf(d)).newLine == t.newLine
  {
    var c := match d case Plus(_) => '+' case Minus(_) => '-' case IDENTITY(_) => ' ';
    assert RawOf(d) == Raw([c] + d.text);
    RawStarts(c, d.text);
    hide StartsWith, IsListItem;
  }

  lemma {:induction false} LineLags(s: Scanner, ds: seq<DiffLine>)
    ensures Scan(s, RawLines(ds)).newLine <= s.newLine + NewSide(ds)
    ensures (exists d <- ds :: LooksLikeHeader(d)) ==> Scan(s, RawLines(ds)).newLine < s.newLine + NewSide(ds)
  {
    hide Scan, RawOf, Step, LooksLikeHeader;
    if ds == [] {
      ScanNothing(s);
    } else {
      var init, d := ds[..|ds| - 1], ds[|ds| - 1];
      LineLags(s, init);
      ScanConcat(s, RawLines(init), [RawOf(d)]);
      ScanOne(Scan(s, RawLines(init)), RawOf(d));
      StepLags(Scan(s, RawLines(init)), d);
      HeaderCounts(d);
      assert forall x <- ds :: x in init || x == d;
    }
  }

  lemma {:induction false} HeaderCounts(d: DiffLine)
    ensures LooksLikeHeader(d) ==> !d.Minus?
  {
  }

  /** The scanner reads a hunk right if and only if none of its added lines reads as a header. */
  lemma {:induction false} ScanBodyExact(s: Scanner, ds: seq<DiffLine>)
    requires s.path != "" && s.hunkIndex >= 0
    ensures Scan(s, RawLines(ds)) == AfterBody(s, ds) <==> forall d <- ds :: !LooksLikeHeader(d)
  {
    hide Scan, RawLines, NewSide, AddedIn, RemovedIn, AddsRelease, LooksLikeHeader;
    LineLags(s, ds);
    if forall d <- ds :: !LooksLikeHeader(d) {
      ScanBody(s, ds);
    }
  }

  lemma {:induction false} ScanHunk(s: Scanner, h: Hunk)
    requires s.path != "" && s.hunkIndex >= -1 && PlainHunk(h)
    ensures var index, hunk := s.hunkIndex + 1, HunkRef(s.path, s.hunkIndex + 1);
      Scan(s, HunkLines(h)) == Scanner(s.path, h.newStart + NewSide(h.lines), index,
        s.added + AddedIn(s.path, index, h.newStart, h.lines), s.removed + RemovedIn(s.path, index, h.lines),
        s.releaseHunks + if AddsRelease(h.lines) then {hunk} else {})
  {
    hide Scan, RawLines, AddedIn, RemovedIn, NewSide, AddsRelease, LooksLikeHeader;
    ScanConcat(s, [HunkHeader(h.newStart)], RawLines(h.lines));
    ScanOne(s, HunkHeader(h.newStart));
    ScanBody(s.(newLine := h.newStart, hunkIndex := s.hunkIndex + 1), h.lines);
  }

  /** All items added by the first hunks of a file. */
  function AddedByHunks(path: string, hs: seq<Hunk>): seq<AddedItem> {
    if hs == [] then [] else
    AddedByHunks(path, hs[..|hs| - 1]) + AddedIn(path, |hs| - 1, hs[|hs| - 1].newStart, hs[|hs| - 1].lines)
  }

  function RemovedByHunks(path: string, hs: seq<Hunk>): seq<RemovedItem> {
    if hs == [] then [] else
    RemovedByHunks(path, hs[..|hs| - 1]) + RemovedIn(path, |hs| - 1, hs[|hs| - 1].lines)
  }

  function ReleasesByHunks(path: string, hs: seq<Hunk>): set<HunkRef> {
    if hs == [] then {} else
    ReleasesByHunks(path, hs[..|hs| - 1]) + if AddsRelease(hs[|hs| - 1].lines) then {HunkRef(path, |hs| - 1)} else {}
  }

  ghost predicate Gathered(s: Scanner, s0: Scanner, path: string, hs: seq<Hunk>) {
    && s.path == path && s.hunkIndex == |hs| - 1
    && s.added == s0.added + AddedByHunks(path, hs)
    && s.removed == s0.removed + RemovedByHunks(path, hs)
    && s.releaseHunks == s0.releaseHunks + ReleasesByHunks(path, hs)
  }

  lemma {:induction false} ScanHunks(s: Scanner, hs: seq<Hunk>)
    requires s.path != "" && s.hunkIndex == -1 && forall h <- hs :: PlainHunk(h)
    ensures Gathered(Scan(s, HunksLines(hs)), s, s.path, hs)
  {
    hide PlainHunk, HunkLines, Scan, Gathered;
    ScanNothing(s);
    GatheredNothing(s);
    if hs != [] {
      var init, h := hs[..|hs| - 1], hs[|hs| - 1];
      ScanHunks(s, init);
      ScanConcat(s, HunksLines(init), HunkLines(h));
      GatherHunk(Scan(s, HunksLines(init)), s, s.path, hs);
    }
  }

  lemma {:induction false} GatheredNothing(s: Scanner)
    requires s.hunkIndex == -1
    ensures Gathered(s, s, s.path, [])
  {
    assert s.added + [] == s.added && s.removed + [] == s.removed;
  }

  lemma {:induction false} GatherHunk(s: Scanner, s0: Scanner, path: string, hs: seq<Hunk>)
    requires hs != [] && path != "" && Gathered(s, s0, path, hs[..|hs| - 1]) && PlainHunk(hs[|hs| - 1])
    ensures Gathered(Scan(s, HunkLines(hs[|hs| - 1])), s0, path, hs)
  {
    hide PlainHunk, HunkLines, Scan, AddedIn, RemovedIn, AddsRelease, NewSide;
    ScanHunk(s, hs[|hs| - 1]);
  }

  lemma {:induction false} ScanFile(s: Scanner, f: FileDiff)
    requires PlainFile(f)
    ensures Gathered(Scan(s, FileLines(f)), s, f.path, f.hunks)
  {
    var a, b, c := Raw("diff --git a/" + f.path + " b/" + f.path), Raw("--- a/" + f.path), Raw("+++ b/" + f.path);
    ScanConcat(s, [a, b, c], HunksLines(f.hunks));
    ScanConcat(s, [a, b], [c]);
    ScanConcat(s, [a], [b]);
    assert [a, b] == [a] + [b] && [a, b, c] == [a, b] + [c];
    ScanOne(s, a);
    ScanOne(Step(s, a), b);
    ScanOne(Step(Step(s, a), b), c);
    HeaderSteps(s, f.path);
    ScanHunks(s.(path := f.path, hunkIndex := -1), f.hunks);
  }

  lemma {:induction false} HeaderSteps(s: Scanner, path: string)
    ensures Step(Step(Step(s, Raw("diff --git a/" + path + " b/" + path)), Raw("--- a/" + path)), Raw("+++ b/" + path))
      == s.(path := path, hunkIndex := -1)
  {
    var a, b, c := "diff --git a/" + path + " b/" + path, "--- a/" + path, "+++ b/" + path;
    assert a[..11] == "diff --git " && a[0] == 'd';
    assert b[0] == '-' && c[..6] == "+++ b/" && c[6..] == path;
    assert !StartsWith(a, "+++ b/") by { assert "+++ b/"[0] == '+'; }
    assert !StartsWith(b, "+++ b/") && !StartsWith(b, "diff --git ") by {
      assert "+++ b/"[0] == '+' && "diff --git "[0] == 'd';
    }
  }

  function AllAdded(fs: seq<FileDiff>): seq<AddedItem> {
    if fs == [] then [] else AllAdded(fs[..|fs| - 1]) + AddedByHunks(fs[|fs| - 1].path, fs[|fs| - 1].hunks)
  }

  function AllRemoved(fs: seq<FileDiff>): seq<RemovedItem> {
    if fs == [] then [] else AllRemoved(fs[..|fs| - 1]) + RemovedByHunks(fs[|fs| - 1].path, fs[|fs| - 1].hunks)
  }

  function AllReleases(fs: seq<FileDiff>): set<HunkRef> {
    if fs == [] then {} else AllReleases(fs[..|fs| - 1]) + ReleasesByHunks(fs[|fs| - 1].path, fs[|fs| - 1].hunks)
  }

  /** On a well-formed diff the scanner finds every added and removed item of every hunk, in
      order, each addition at its true line of the new file. */
  lemma {:induction false} ScanTrueNumbers(fs: seq<FileDiff>)
    requires forall f <- fs :: PlainFile(f)
    ensures var s := Scan(START, DiffLines(fs));
      s.added == AllAdded(fs) && s.removed == AllRemoved(fs) && s.releaseHunks == AllReleases(fs)
  {
    if fs != [] {
      var init, f := fs[..|fs| - 1], fs[|fs| - 1];
      ScanTrueNumbers(init);
      ScanConcat(START, DiffLines(init), FileLines(f));
      ScanFile(Scan(START, DiffLines(init)), f);
      hide PlainFile, FileLines, Scan, AddedByHunks, RemovedByHunks, ReleasesByHunks;
    }
  }

  /** An added line that reads as a header loses its place: what follows it is put one line too
      early, and under another path. */
  lemma {:induction false} HeaderLikeLineMisleads(s: Scanner, text: string)
    requires s.path != "" && s.hunkIndex >= 0 && text != ""
    ensures var after := Scan(s, RawLines([Plus("++ b/" + text), Plus("- item")]));
      && after.added == s.added + [AddedItem(text, s.newLine, "- item", HunkRef(text, s.hunkIndex))]
    ensures AddedIn(s.path, s.hunkIndex, s.newLine, [Plus("++ b/" + text), Plus("- item")])
      == [AddedItem(s.path, s.newLine + 1, "- item", HunkRef(s.path, s.hunkIndex))]
  {
    var a, b := Plus("++ b/" + text), Plus("- item");
    TwoLines(s, a, b);
    HeaderLike(text);
    ItemLine();
    RawStarts('+', "- item");
    var t := s.(path := text);
    assert Step(s, RawOf(a)) == t;
    hide IsListItem;
    BodyStep(t, b);
  }

  lemma {:induction false} HeaderLike(text: string)
    ensures StartsWith("+" + ("++ b/" + text), "+++ b/") && ("+" + ("++ b/" + text))[6..] == text
    ensures !IsListItem("++ b/" + text)
  {
    assert ("+" + ("++ b/" + text))[..6] == "+++ b/";
    assert ("++ b/" + text)[0] == '+' && "- "[0] == '-';
  }

  lemma {:induction false} ItemLine()
    ensures IsListItem("- item") && !LooksLikeHeader(Plus("- item")) && !StartsWith("- item", "## [")
  {
    assert "- item"[..2] == "- " && "++ b/"[0] == '+' && "## ["[0] == '#';
  }

  lemma {:induction false} NothingIn(s: Scanner)
    ensures RawLines([]) == [] && NewSide([]) == 0 && AddedIn(s.path, s.hunkIndex, s.newLine, []) == []
  {
  }

  lemma {:induction false} TwoLines(s: Scanner, a: DiffLine, b: DiffLine)
    ensures Scan(s, RawLines([a, b])) == Step(Step(s, RawOf(a)), RawOf(b))
    ensures AddedIn(s.path, s.hunkIndex, s.newLine, [a, b])
      == AddedIn(s.path, s.hunkIndex, s.newLine, [a])
        + (if b.Plus? && IsListItem(b.text)
           then [AddedItem(s.path, s.newLine + NewSide([a]), b.text, HunkRef(s.path, s.hunkIndex))] else [])
    ensures AddedIn(s.path, s.hunkIndex, s.newLine, [a])
      == if a.Plus? && IsListItem(a.text)
        then [AddedItem(s.path, s.newLine, a.text, HunkRef(s.path, s.hunkIndex))] else []
    ensures NewSide([a]) == if a.Minus? then 0 else 1
  {
    hide IsListItem, Step, RawOf, AddedIn, RemovedIn, RawLines, NewSide, AddsRelease, Scan, StartsWith;
    assert [a, b][..1] == [a] && [a][..0] == [];
    BodyParts(s, [a, b]);
    BodyParts(s, [a]);
    NothingIn(s);
    assert RawLines([a]) == [RawOf(a)] && RawLines([a, b]) == [RawOf(a)] + [RawOf(b)];
    ScanConcat(s, [RawOf(a)], [RawOf(b)]);
    ScanOne(s, RawOf(a));
    ScanOne(Step(s, RawOf(a)), RawOf(b));
  }

  // ---------------------------------------------------------------- true line numbers

  /** The lines of the new file that a hunk shows. */
  function NewLines(ds: seq<DiffLine>): seq<string> {
    if ds == [] then [] else
    NewLines(ds[..|ds| - 1]) + if ds[|ds| - 1].Minus? then [] else [ds[|ds| - 1].text]
  }

  /** The addition `a` is line `i` of the hunk, and its number that of the same line of the new file. */
  ghost predicate AddedAt(a: AddedItem, i: nat, path: string, index: int, start: nat, ds: seq<DiffLine>) {
    && i < |ds| && ds[i].Plus? && IsListItem(ds[i].text)
    && a.path == path && a.hunk == HunkRef(path, index) && a.text == ds[i].text
    && start <= a.lineNumber < start + |NewLines(ds)| && NewLines(ds)[a.lineNumber - start] == a.text
    && a.lineNumber == start + |NewLines(ds[..i])|
  }

  lemma {:induction false} NewLinesSnoc(ds: seq<DiffLine>, d: DiffLine)
    ensures NewLines(ds + [d]) == NewLines(ds) + if d.Minus? then [] else [d.text]
  {
    assert (ds + [d])[..|ds|] == ds;
  }

  lemma {:induction false} NewLineCount(ds: seq<DiffLine>)
    ensures |NewLines(ds)| == NewSide(ds)
  {
    if ds != [] { NewLineCount(ds[..|ds| - 1]); }
  }

  lemma {:induction false} StillAdded(
    a: AddedItem, i: nat, path: string, index: int, start: nat, ds: seq<DiffLine>, d: DiffLine)
    requires AddedAt(a, i, path, index, start, ds)
    ensures AddedAt(a, i, path, index, start, ds + [d])
  {
    hide IsListItem, NewLines;
    NewLinesSnoc(ds, d);
    assert (ds + [d])[..i] == ds[..i];
  }

  lemma {:induction false} JustAdded(path: string, index: int, start: nat, ds: seq<DiffLine>, d: DiffLine)
    requires d.Plus? && IsListItem(d.text)
    ensures AddedAt(AddedItem(path, start + NewSide(ds), d.text, HunkRef(path, index)),
      |ds|, path, index, start, ds + [d])
  {
    hide IsListItem, NewLines;
    NewLinesSnoc(ds, d);
    NewLineCount(ds);
    assert (ds + [d])[..|ds|] == ds;
  }

  /** The additions of a hunk are its added list items, in order. */
  ghost predicate AddedFrom(
    added: seq<AddedItem>, at: seq<nat>, path: string, index: int, start: nat, ds: seq<DiffLine>)
  {
    && |at| == |added|
    && (forall i | 0 <= i < |at| :: AddedAt(added[i], at[i], path, index, start, ds))
    && (forall i, j | 0 <= i < j < |at| :: at[i] < at[j])
    && forall i: nat | i < |ds| && ds[i].Plus? && IsListItem(ds[i].text) :: i in at
  }

  lemma {:induction false} OneMoreAdded(
    added: seq<AddedItem>, at: seq<nat>, path: string, index: int, start: nat, init: seq<DiffLine>, d: DiffLine)
    returns (next: seq<nat>)
    requires AddedFrom(added, at, path, index, start, init)
    ensures AddedFrom(added + (if d.Plus? && IsListItem(d.text)
        then [AddedItem(path, start + NewSide(init), d.text, HunkRef(path, index))] else []),
      next, path, index, start, init + [d])
  {
    assert forall i | 0 <= i < |at| :: at[i] < |init|;
    hide IsListItem, AddedAt, NewSide;
    forall i | 0 <= i < |at| ensures AddedAt(added[i], at[i], path, index, start, init + [d]) {
      StillAdded(added[i], at[i], path, index, start, init, d);
    }
    if d.Plus? && IsListItem(d.text) {
      JustAdded(path, index, start, init, d);
      next := at + [|init|];
    } else {
      next := at;
    }
  }

  lemma {:induction false} AddedExactly(path: string, index: int, start: nat, ds: seq<DiffLine>) returns (at: seq<nat>)
    ensures AddedFrom(AddedIn(path, index, start, ds), at, path, index, start, ds)
  {
    if ds == [] {
      at := [];
    } else {
      var init, d := ds[..|ds| - 1], ds[|ds| - 1];
      at := AddedExactly(path, index, start, init);
      assert ds == init + [d];
      hide AddedFrom, IsListItem, NewSide;
      at := OneMoreAdded(AddedIn(path, index, start, init), at, path, index, start, init, d);
    }
  }

  /** The removals are its removed list items, in order. */
  ghost predicate RemovedFrom(removed: seq<RemovedItem>, at: seq<nat>, path: string, index: int, ds: seq<DiffLine>) {
    && |at| == |removed|
    && (forall i | 0 <= i < |at| :: at[i] < |ds| && RemovedAt(removed[i], ds[at[i]], path, index))
    && (forall i, j | 0 <= i < j < |at| :: at[i] < at[j])
    && forall i: nat | i < |ds| && ds[i].Minus? && IsListItem(ds[i].text) :: i in at
  }

  predicate RemovedAt(r: RemovedItem, d: DiffLine, path: string, index: int) {
    d.Minus? && IsListItem(d.text) && r == RemovedItem(path, d.text, HunkRef(path, index))
  }

  lemma {:induction false} RemovedExactly(path: string, index: int, ds: seq<DiffLine>) returns (at: seq<nat>)
    ensures RemovedFrom(RemovedIn(path, index, ds), at, path, index, ds)
  {
    if ds == [] {
      at := [];
    } else {
      var init, d := ds[..|ds| - 1], ds[|ds| - 1];
      at := RemovedExactly(path, index, init);
      assert ds == init + [d];
      hide RemovedFrom, IsListItem;
      at := OneMoreRemoved(RemovedIn(path, index, init), at, path, index, init, d);
    }
  }

  lemma {:induction false} OneMoreRemoved(
    removed: seq<RemovedItem>, at: seq<nat>, path: string, index: int, init: seq<DiffLine>, d: DiffLine)
    returns (next: seq<nat>)
    requires RemovedFrom(removed, at, path, index, init)
    ensures RemovedFrom(removed + (if d.Minus? && IsListItem(d.text)
        then [RemovedItem(path, d.text, HunkRef(path, index))] else []),
      next, path, index, init + [d])
  {
    hide IsListItem;
    if d.Minus? && IsListItem(d.text) {
      next := at + [|init|];
    } else {
      next := at;
    }
  }
}
