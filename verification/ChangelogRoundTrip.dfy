/** Printing and parsing undo each other, up to blank edges and empty subsections. */
module ChangelogRoundTrip {
  import opened TextLines
  import opened ChangelogText
  import opened ChangelogParse
  import opened ChangelogRender

  // ---------------------------------------------------------------- numbers do not matter

  /** Lines without numbers. */
  function Plain(ls: seq<string>): (r: seq<NumberedLine>)
    ensures |r| == |ls| && Texts(r) == ls
  {
    var r := seq(|ls|, i requires 0 <= i < |ls| => NumberedLine(ls[i], 0));
    assert Texts(r) == ls;
    r
  }

  lemma {:induction false} SameSlices(a: seq<NumberedLine>, b: seq<NumberedLine>, i: nat, j: nat)
    requires Texts(a) == Texts(b) && i <= j <= |a|
    ensures |a| == |b| && Texts(a[i..j]) == Texts(b[i..j]) && Texts(a[i..]) == Texts(b[i..])
    ensures forall k | 0 <= k < |a| :: a[k].text == b[k].text
  {
    assert |Texts(a)| == |Texts(b)|;
    forall k | 0 <= k < |a| ensures a[k].text == b[k].text {
      assert Texts(a)[k] == Texts(b)[k];
    }
    assert Texts(a[i..j]) == Texts(b[i..j]);
    assert Texts(a[i..]) == Texts(b[i..]);
  }

  lemma {:induction false} SameUntil(a: seq<NumberedLine>, b: seq<NumberedLine>)
    requires Texts(a) == Texts(b)
    ensures UntilRelease(a) == UntilRelease(b) && UntilSubsection(a) == UntilSubsection(b)
  {
    SameSlices(a, b, 0, 0);
    if a != [] {
      SameSlices(a, b, 1, 1);
      SameUntil(a[1..], b[1..]);
    }
  }

  lemma {:induction false} SameParts(a: seq<NumberedLine>, b: seq<NumberedLine>)
    requires Texts(a) == Texts(b)
    ensures PartsOf(Subsections(a)) == PartsOf(Subsections(b))
    decreases |a|
  {
    SameSlices(a, b, 0, 0);
    if a != [] {
      SameSlices(a, b, 1, 1);
      SameUntil(a[1..], b[1..]);
      var n := UntilSubsection(a[1..]);
      SameSlices(a, b, 1, 1 + n);
      SameSlices(a, b, 1 + n, 1 + n);
      SameParts(a[1 + n..], b[1 + n..]);
      FirstPart(a);
      FirstPart(b);
      hide Subsections, PartsOf, UntilSubsection;
    }
  }

  /** The first subsection's part, then the rest. */
  lemma {:induction false} FirstPart(a: seq<NumberedLine>)
    requires a != []
    ensures var n := UntilSubsection(a[1..]);
      var lines := TrimLines(Texts(a[1..1 + n]));
      PartsOf(Subsections(a)) ==
        (if lines == [] then [] else [Part(SubsectionTitle(a[0].text), lines)]) + PartsOf(Subsections(a[1 + n..]))
  {
    var n := UntilSubsection(a[1..]);
    var s, rest := Subsection(SubsectionTitle(a[0].text), a[1..1 + n]), Subsections(a[1 + n..]);
    assert Subsections(a) == [s] + rest;
    assert ([s] + rest)[1..] == rest && ([s] + rest)[0] == s;
    hide Subsections, TrimLines;
  }

  lemma {:induction false} SameRelease(heading: string, a: seq<NumberedLine>, b: seq<NumberedLine>)
    requires Texts(a) == Texts(b)
    ensures ReleaseOf(SectionOf(heading, a)) == ReleaseOf(SectionOf(heading, b))
  {
    SameUntil(a, b);
    var n := UntilSubsection(a);
    SameSlices(a, b, 0, n);
    SameSlices(a, b, n, n);
    assert a[0..n] == a[..n] && b[0..n] == b[..n];
    SameParts(a[n..], b[n..]);
  }

  lemma {:induction false} FirstRelease(a: seq<NumberedLine>)
    requires a != []
    ensures var n := UntilRelease(a[1..]);
      ReleasesOf(Sections(a)) == [ReleaseOf(SectionOf(a[0].text, a[1..1 + n]))] + ReleasesOf(Sections(a[1 + n..]))
  {
    var n := UntilRelease(a[1..]);
    var s, rest := SectionOf(a[0].text, a[1..1 + n]), Sections(a[1 + n..]);
    assert Sections(a) == [s] + rest;
    assert ([s] + rest)[1..] == rest;
  }

  lemma {:induction false} SameReleases(a: seq<NumberedLine>, b: seq<NumberedLine>)
    requires Texts(a) == Texts(b)
    ensures ReleasesOf(Sections(a)) == ReleasesOf(Sections(b))
    decreases |a|
  {
    SameSlices(a, b, 0, 0);
    if a != [] {
      SameSlices(a, b, 1, 1);
      SameUntil(a[1..], b[1..]);
      var n := UntilRelease(a[1..]);
      SameSlices(a, b, 1, 1 + n);
      SameSlices(a, b, 1 + n, 1 + n);
      SameReleases(a[1 + n..], b[1 + n..]);
      SameRelease(a[0].text, a[1..1 + n], b[1..1 + n]);
      FirstRelease(a);
      FirstRelease(b);
      hide Sections, ReleasesOf, UntilRelease, SectionOf, ReleaseOf;
    }
  }

  /** The outline depends on the text of the lines only. */
  lemma {:induction false} SameOutline(a: seq<NumberedLine>, b: seq<NumberedLine>)
    requires Texts(a) == Texts(b)
    ensures OutlineOf(DocumentOf(a)) == OutlineOf(DocumentOf(b))
  {
    SameUntil(a, b);
    var n := UntilRelease(a);
    SameSlices(a, b, 0, n);
    SameSlices(a, b, n, n);
    assert a[0..n] == a[..n] && b[0..n] == b[..n];
    SameReleases(a[n..], b[n..]);
  }

  // ---------------------------------------------------------------- a trailing empty line

  const EMPTY: NumberedLine := NumberedLine("", 0)

  lemma {:induction false} TextsConcat(a: seq<NumberedLine>, b: seq<NumberedLine>)
    ensures Texts(a + b) == Texts(a) + Texts(b)
  {
  }

  lemma {:induction false} UntilWithEmpty(a: seq<NumberedLine>)
    ensures UntilRelease(a + [EMPTY]) == if UntilRelease(a) == |a| then |a| + 1 else UntilRelease(a)
    ensures UntilSubsection(a + [EMPTY]) == if UntilSubsection(a) == |a| then |a| + 1 else UntilSubsection(a)
  {
    if a != [] {
      assert (a + [EMPTY])[1..] == a[1..] + [EMPTY];
      UntilWithEmpty(a[1..]);
    } else {
      assert ([] + [EMPTY])[1..] == [];
    }
  }

  lemma {:induction false} PartsWithEmpty(a: seq<NumberedLine>)
    requires a != []
    ensures PartsOf(Subsections(a + [EMPTY])) == PartsOf(Subsections(a))
    decreases |a|
  {
    hide Subsections, PartsOf, UntilSubsection, UntilRelease, TrimLines, SubsectionTitle, IsBlank;
    var b, n := a + [EMPTY], UntilSubsection(a[1..]);
    assert b[1..] == a[1..] + [EMPTY];
    UntilWithEmpty(a[1..]);
    FirstPart(a);
    FirstPart(b);
    if n == |a| - 1 {
      assert a[1..1 + n] == a[1..] && b[1..1 + n + 1] == a[1..] + [EMPTY];
      assert a[1 + n..] == [] && b[1 + n + 1..] == [];
      TrimTextsEmpty(a[1..]);
    } else {
      assert b[1..1 + n] == a[1..1 + n] && b[1 + n..] == a[1 + n..] + [EMPTY];
      PartsWithEmpty(a[1 + n..]);
    }
  }

  lemma {:induction false} TrimTextsEmpty(a: seq<NumberedLine>)
    ensures TrimLines(Texts(a + [EMPTY])) == TrimLines(Texts(a))
  {
    TextsConcat(a, [EMPTY]);
    assert Texts([EMPTY]) == [""];
    TrimBlankAfter(Texts(a), "");
  }

  lemma {:induction false} ReleaseWithEmpty(heading: string, a: seq<NumberedLine>)
    ensures ReleaseOf(SectionOf(heading, a + [EMPTY])) == ReleaseOf(SectionOf(heading, a))
  {
    var b, n := a + [EMPTY], UntilSubsection(a);
    UntilWithEmpty(a);
    if n == |a| {
      assert a[..n] == a && b[..n + 1] == a + [EMPTY] && a[n..] == [] == b[n + 1..];
      TrimTextsEmpty(a);
    } else {
      assert b[..n] == a[..n] && b[n..] == a[n..] + [EMPTY];
      PartsWithEmpty(a[n..]);
    }
  }

  lemma {:induction false} ReleasesWithEmpty(a: seq<NumberedLine>)
    requires a != []
    ensures ReleasesOf(Sections(a + [EMPTY])) == ReleasesOf(Sections(a))
    decreases |a|
  {
    hide Sections, ReleasesOf, UntilRelease, UntilSubsection, SectionOf, ReleaseOf;
    var b, n := a + [EMPTY], UntilRelease(a[1..]);
    assert b[1..] == a[1..] + [EMPTY];
    UntilWithEmpty(a[1..]);
    FirstRelease(a);
    FirstRelease(b);
    if n == |a| - 1 {
      assert a[1..1 + n] == a[1..] && b[1..1 + n + 1] == a[1..] + [EMPTY];
      assert a[1 + n..] == [] && b[1 + n + 1..] == [];
      ReleaseWithEmpty(a[0].text, a[1..]);
    } else {
      assert b[1..1 + n] == a[1..1 + n] && b[1 + n..] == a[1 + n..] + [EMPTY];
      ReleasesWithEmpty(a[1 + n..]);
    }
  }

  lemma {:induction false} OutlineWithEmpty(a: seq<NumberedLine>)
    ensures OutlineOf(DocumentOf(a + [EMPTY])) == OutlineOf(DocumentOf(a))
  {
    var b, n := a + [EMPTY], UntilRelease(a);
    UntilWithEmpty(a);
    if n == |a| {
      assert a[..n] == a && b[..n + 1] == a + [EMPTY] && a[n..] == [] == b[n + 1..];
      TrimTextsEmpty(a);
    } else {
      assert b[..n] == a[..n] && b[n..] == a[n..] + [EMPTY];
      ReleasesWithEmpty(a[n..]);
    }
  }

  /** The outline of some lines of text. */
  function Outlined(ls: seq<string>): Outline {
    OutlineOf(DocumentOf(Plain(ls)))
  }

  lemma {:induction false} DroppedEndOutline(ls: seq<string>)
    ensures Outlined(DropEmptyEnd(ls)) == Outlined(ls)
  {
    hide OutlineOf, DocumentOf;
    if ls != [] && ls[|ls| - 1] == "" {
      var init := ls[..|ls| - 1];
      DroppedEndOutline(init);
      EmptyLast(ls);
      hide DropEmptyEnd;
      OutlineWithEmpty(Plain(init));
    }
  }

  lemma {:induction false} EmptyLast(ls: seq<string>)
    requires ls != [] && ls[|ls| - 1] == ""
    ensures Plain(ls) == Plain(ls[..|ls| - 1]) + [EMPTY]
  {
  }

  // ---------------------------------------------------------------- reading a printed outline

  predicate BodyText(line: string) {
    !IsReleaseHeading(line) && !IsSubsectionHeading(line)
  }

  predicate TidyPart(p: Part) {
    IsTrimmed(p.title) && p.lines != [] && TidyLines(p.lines) && forall l <- p.lines :: BodyText(l)
  }

  predicate TidyRelease(r: Release) {
    && IsReleaseHeading(r.heading) && TidyLines(r.leading) && (forall l <- r.leading :: BodyText(l))
    && forall p <- r.parts :: TidyPart(p)
  }

  predicate TidyOutline(o: Outline) {
    && TidyLines(o.prefix) && (forall l <- o.prefix :: !IsReleaseHeading(l))
    && forall r <- o.releases :: TidyRelease(r)
  }

  lemma {:induction false} EmptyIsBody()
    ensures BodyText("")
  {
  }

  lemma {:induction false} BlockLines(p: Part, l: string)
    requires TidyPart(p) && l in PartBlock(p)
    ensures !IsReleaseHeading(l)
  {
    RenderedHeading(p.title);
    EmptyIsBody();
  }

  lemma {:induction false} PartBlocksLines(parts: seq<Part>, l: string)
    requires (forall p <- parts :: TidyPart(p)) && l in PartBlocks(parts)
    ensures !IsReleaseHeading(l)
  {
    if l in PartBlock(parts[0]) { BlockLines(parts[0], l); } else { PartBlocksLines(parts[1..], l); }
  }

  lemma {:induction false} PlainConcat(a: seq<string>, b: seq<string>)
    ensures Plain(a + b) == Plain(a) + Plain(b)
  {
  }

  /** The lines up to the next subsection heading. */
  lemma {:induction false} UntilBlock(body: seq<string>, rest: seq<string>)
    requires (forall l <- body :: !IsSubsectionHeading(l)) && (rest != [] ==> IsSubsectionHeading(rest[0]))
    ensures UntilSubsection(Plain(body + rest)) == |body|
    ensures Plain(body + rest)[..|body|] == Plain(body) && Plain(body + rest)[|body|..] == Plain(rest)
  {
    PlainConcat(body, rest);
    UntilSubsectionIs(Plain(body + rest), |body|);
  }

  lemma {:induction false} UntilNextRelease(body: seq<string>, rest: seq<string>)
    requires (forall l <- body :: !IsReleaseHeading(l)) && (rest != [] ==> IsReleaseHeading(rest[0]))
    ensures UntilRelease(Plain(body + rest)) == |body|
    ensures Plain(body + rest)[..|body|] == Plain(body) && Plain(body + rest)[|body|..] == Plain(rest)
  {
    PlainConcat(body, rest);
    UntilReleaseIs(Plain(body + rest), |body|);
  }

  lemma {:induction false} ReadParts(parts: seq<Part>)
    requires forall p <- parts :: TidyPart(p)
    ensures PartsOf(Subsections(Plain(PartBlocks(parts)))) == parts
    ensures PartBlocks(parts) != [] ==> IsSubsectionHeading(PartBlocks(parts)[0])
  {
    NoPartsRead();
    if parts != [] {
      PartBlocksStep(parts);
      assert TidyPart(parts[0]);
      RenderedHeading(parts[0].title);
      hide PartsOf, Subsections, PartBlocks, IsSubsectionHeading, IsReleaseHeading, TidyPart, Plain, SubsectionLine;
      var p, rest := parts[0], PartBlocks(parts[1..]);
      ReadParts(parts[1..]);
      ReadOnePart(p, [""] + p.lines + [""], rest);
      assert parts == [p] + parts[1..];
    }
  }

  lemma {:induction false} NoPartsRead()
    ensures PartBlocks([]) == [] && ReleaseBlocks([]) == []
    ensures PartsOf(Subsections(Plain([]))) == [] && ReleasesOf(Sections(Plain([]))) == []
  {
  }

  lemma {:induction false} PartBlocksStep(parts: seq<Part>)
    requires parts != []
    ensures PartBlocks(parts)
      == [SubsectionLine(parts[0].title)] + (([""] + parts[0].lines + [""]) + PartBlocks(parts[1..]))
  {
  }

  lemma {:induction false} ReleaseBlocksStep(rs: seq<Release>)
    requires rs != []
    ensures ReleaseBlocks(rs)
      == [rs[0].heading] + ((LeadBlock(rs[0].leading) + PartBlocks(rs[0].parts)) + ReleaseBlocks(rs[1..]))
  {
  }

  lemma {:induction false} ReadOnePart(p: Part, body: seq<string>, rest: seq<string>)
    requires TidyPart(p) && body == [""] + p.lines + [""] && (rest != [] ==> IsSubsectionHeading(rest[0]))
    ensures PartsOf(Subsections(Plain([SubsectionLine(p.title)] + (body + rest))))
      == [p] + PartsOf(Subsections(Plain(rest)))
  {
    hide Plain, PartsOf, Subsections, UntilSubsection, UntilRelease, IsSubsectionHeading, IsReleaseHeading,
      TrimLines, SubsectionTitle, SubsectionLine, IsTrimmed;
    var a, n := Plain([SubsectionLine(p.title)] + (body + rest)), |body|;
    RenderedHeading(p.title);
    EmptyIsBody();
    UntilBlock(body, rest);
    PlainCons(SubsectionLine(p.title), body + rest);
    FirstPart(a);
    assert a[1..1 + n] == a[1..][..n] && a[1 + n..] == a[1..][n..];
    TrimAround(p.lines);
  }

  lemma {:induction false} ReadRelease(r: Release)
    requires TidyRelease(r)
    ensures ReleaseOf(SectionOf(r.heading, Plain(LeadBlock(r.leading) + PartBlocks(r.parts)))) == r
  {
    hide PartsOf, Subsections, UntilSubsection, IsSubsectionHeading, IsReleaseHeading, TrimLines, PartBlocks,
      Plain, TidyPart;
    var lead, rest := LeadBlock(r.leading), PartBlocks(r.parts);
    ReadParts(r.parts);
    EmptyIsBody();
    UntilBlock(lead, rest);
    TrimAround(r.leading);
    TrimAround([]);
  }

  lemma {:induction false} BodyOfRelease(r: Release)
    requires TidyRelease(r)
    ensures forall l <- LeadBlock(r.leading) + PartBlocks(r.parts) :: !IsReleaseHeading(l)
  {
    EmptyIsBody();
    forall l <- LeadBlock(r.leading) + PartBlocks(r.parts) ensures !IsReleaseHeading(l) {
      if l in PartBlocks(r.parts) { PartBlocksLines(r.parts, l); }
    }
  }

  lemma {:induction false} ReadReleases(rs: seq<Release>)
    requires forall r <- rs :: TidyRelease(r)
    ensures ReleasesOf(Sections(Plain(ReleaseBlocks(rs)))) == rs
    ensures ReleaseBlocks(rs) != [] ==> IsReleaseHeading(ReleaseBlocks(rs)[0])
  {
    NoPartsRead();
    if rs != [] {
      ReleaseBlocksStep(rs);
      hide ReleasesOf, Sections, ReleaseBlocks, IsReleaseHeading, Plain, PartBlocks, LeadBlock, TidyPart, TidyLines;
      var r, rest := rs[0], ReleaseBlocks(rs[1..]);
      ReadReleases(rs[1..]);
      ReadOneRelease(r, LeadBlock(r.leading) + PartBlocks(r.parts), rest);
      assert rs == [r] + rs[1..];
    }
  }

  lemma {:induction false} ReadOneRelease(r: Release, body: seq<string>, rest: seq<string>)
    requires TidyRelease(r) && body == LeadBlock(r.leading) + PartBlocks(r.parts)
    requires rest != [] ==> IsReleaseHeading(rest[0])
    ensures ReleasesOf(Sections(Plain([r.heading] + (body + rest)))) == [r] + ReleasesOf(Sections(Plain(rest)))
  {
    hide *;
    BodyOfRelease(r);
    ReadRelease(r);
    UntilNextRelease(body, rest);
    PlainCons(r.heading, body + rest);
    var a, n := Plain([r.heading] + (body + rest)), |body|;
    FirstRelease(a);
    assert a[1..1 + n] == a[1..][..n] && a[1 + n..] == a[1..][n..];
  }

  lemma {:induction false} PlainCons(first: string, rest: seq<string>)
    ensures var a := Plain([first] + rest); a != [] && a[0].text == first && a[1..] == Plain(rest)
  {
    PlainConcat([first], rest);
  }

  /** Reading back a printed tidy outline gives that outline. */
  lemma {:induction false} ReadPrinted(o: Outline)
    requires TidyOutline(o)
    ensures Outlined(DropEmptyEnd(Printed(o))) == o
  {
    hide ReleasesOf, Sections, UntilRelease, IsReleaseHeading, ReleaseBlocks, TrimLines, DropEmptyEnd, Plain,
      TidyRelease;
    DroppedEndOutline(Printed(o));
    var head, rest := if o.prefix == [] then [] else o.prefix + [""], ReleaseBlocks(o.releases);
    ReadReleases(o.releases);
    EmptyIsBody();
    UntilNextRelease(head, rest);
    TrimAround(o.prefix);
    TrimAround([]);
  }

  // ---------------------------------------------------------------- what the parser returns is printable

  ghost predicate PrintablePart(s: Subsection) {
    IsTrimmed(s.title) && CleanLine(s.title) && forall l <- Texts(s.lines) :: BodyText(l) && CleanLine(l)
  }

  ghost predicate PrintableSection(s: ReleaseSection) {
    && IsReleaseHeading(s.heading) && CleanLine(s.heading)
    && (forall l <- Texts(s.leading) :: BodyText(l) && CleanLine(l))
    && forall p <- s.subsections :: PrintablePart(p)
  }

  /** Headings where headings belong, and nowhere else. */
  ghost predicate Printable(doc: Document) {
    && (forall l <- Texts(doc.prefix) :: !IsReleaseHeading(l) && CleanLine(l))
    && forall s <- doc.sections :: PrintableSection(s)
  }

  lemma {:induction false} ParsedParts(a: seq<NumberedLine>)
    requires a != [] ==> IsSubsectionHeading(a[0].text)
    requires forall l <- a :: !IsReleaseHeading(l.text) && CleanLine(l.text)
    ensures forall s <- Subsections(a) :: PrintablePart(s)
    decreases |a|
  {
    if a != [] {
      var n := UntilSubsection(a[1..]);
      UntilSubsectionStops(a[1..]);
      ParsedParts(a[1 + n..]);
      TitleTrimmed(a[0].text);
      assert a[1..1 + n] == a[1..][..n];
      var s := Subsection(SubsectionTitle(a[0].text), a[1..1 + n]);
      assert PrintablePart(s);
      assert Subsections(a) == [s] + Subsections(a[1 + n..]);
      hide Subsections, UntilSubsection, PrintablePart;
    }
  }

  lemma {:induction false} ParsedSection(heading: string, a: seq<NumberedLine>)
    requires IsReleaseHeading(heading) && CleanLine(heading)
    requires forall l <- a :: !IsReleaseHeading(l.text) && CleanLine(l.text)
    ensures PrintableSection(SectionOf(heading, a))
  {
    UntilSubsectionStops(a);
    ParsedParts(a[UntilSubsection(a)..]);
    hide Subsections, UntilSubsection, PrintablePart, IsReleaseHeading, IsSubsectionHeading;
  }

  lemma {:induction false} ParsedSections(a: seq<NumberedLine>)
    requires a != [] ==> IsReleaseHeading(a[0].text)
    requires forall l <- a :: CleanLine(l.text)
    ensures forall s <- Sections(a) :: PrintableSection(s)
    decreases |a|
  {
    if a != [] {
      var n := UntilRelease(a[1..]);
      UntilReleaseStops(a[1..]);
      ParsedSections(a[1 + n..]);
      assert a[1..1 + n] == a[1..][..n];
      ParsedSection(a[0].text, a[1..1 + n]);
      assert Sections(a) == [SectionOf(a[0].text, a[1..1 + n])] + Sections(a[1 + n..]);
      hide Sections, UntilRelease, PrintableSection, SectionOf, IsReleaseHeading;
    }
  }

  lemma {:induction false} ParsedIsPrintable(content: string)
    ensures Printable(DocumentOf(Numbered(SplitContent(content))))
  {
    var a := Numbered(SplitContent(content));
    ContentClean(content);
    forall l <- a ensures CleanLine(l.text) {
      var i :| 0 <= i < |a| && a[i] == l;
      assert SplitContent(content)[i] in SplitContent(content);
    }
    UntilReleaseStops(a);
    ParsedSections(a[UntilRelease(a)..]);
    hide Sections, UntilRelease, PrintableSection, IsReleaseHeading;
  }

  lemma {:induction false} PrintablePartsTidy(subs: seq<Subsection>)
    requires forall s <- subs :: PrintablePart(s)
    ensures forall p <- PartsOf(subs) :: TidyPart(p)
    ensures CleanLines(PartBlocks(PartsOf(subs)))
  {
    if subs != [] {
      PrintablePartsTidy(subs[1..]);
      var lines := TrimLines(Texts(subs[0].lines));
      TrimIsTidy(Texts(subs[0].lines));
      assert PrintablePart(subs[0]);
      var p, rest := Part(subs[0].title, lines), PartsOf(subs[1..]);
      if lines != [] {
        assert TidyPart(p) && CleanLines(PartBlock(p));
        assert PartsOf(subs) == [p] + rest;
        assert ([p] + rest)[1..] == rest;
        assert PartBlocks(PartsOf(subs)) == PartBlock(p) + PartBlocks(rest);
        hide PartsOf, PartBlocks, TidyPart, PartBlock, TrimLines, PrintablePart;
      } else {
        assert PartsOf(subs) == rest;
      }
    }
  }

  lemma {:induction false} PrintableReleaseTidy(s: ReleaseSection)
    requires PrintableSection(s)
    ensures TidyRelease(ReleaseOf(s)) && CleanLines(ReleaseBlock(ReleaseOf(s)))
  {
    PrintablePartsTidy(s.subsections);
    TrimIsTidy(Texts(s.leading));
    hide PartsOf, PartBlocks, TidyPart, TrimLines, PrintablePart, IsReleaseHeading, IsSubsectionHeading;
  }

  lemma {:induction false} PrintableReleasesTidy(ss: seq<ReleaseSection>)
    requires forall s <- ss :: PrintableSection(s)
    ensures forall r <- ReleasesOf(ss) :: TidyRelease(r)
    ensures CleanLines(ReleaseBlocks(ReleasesOf(ss)))
  {
    if ss != [] {
      PrintableReleasesTidy(ss[1..]);
      PrintableReleaseTidy(ss[0]);
      var r, rest := ReleaseOf(ss[0]), ReleasesOf(ss[1..]);
      assert ReleasesOf(ss) == [r] + rest && ([r] + rest)[1..] == rest;
      hide ReleaseOf, TidyRelease, ReleaseBlock, PrintableSection;
    }
  }

  lemma {:induction false} DroppedEndClean(ls: seq<string>)
    requires CleanLines(ls)
    ensures CleanLines(DropEmptyEnd(ls))
  {
    if ls != [] && ls[|ls| - 1] == "" { DroppedEndClean(ls[..|ls| - 1]); }
  }

  lemma {:induction false} PrintableTidy(doc: Document)
    requires Printable(doc)
    ensures TidyOutline(OutlineOf(doc)) && CleanLines(DropEmptyEnd(Printed(OutlineOf(doc))))
  {
    TrimIsTidy(Texts(doc.prefix));
    PrintableReleasesTidy(doc.sections);
    hide ReleasesOf, ReleaseBlocks, TidyRelease, TrimLines, PrintableSection, IsReleaseHeading;
    DroppedEndClean(Printed(OutlineOf(doc)));
  }

  // ---------------------------------------------------------------- the theorems

  /** Parsing a rendered document returns it, blank edges trimmed and empty subsections dropped. */
  lemma {:induction false} ParseOfRender(doc: Document)
    requires Printable(doc)
    ensures OutlineOf(DocumentOf(Numbered(SplitContent(Rendered(OutlineOf(doc)))))) == OutlineOf(doc)
  {
    hide OutlineOf, DocumentOf, Printed, DropEmptyEnd, Printable, TidyOutline, CleanLines, SplitContent;
    var o := OutlineOf(doc);
    PrintableTidy(doc);
    var ls := DropEmptyEnd(Printed(o));
    ReadPrinted(o);
    RenderedReadsBack(ls);
    var back := if ls == [] then [""] else ls;
    assert Texts(Numbered(back)) == back;
    SameOutline(Numbered(back), Plain(back));
    if ls == [] {
      OutlineWithEmpty([]);
      assert Plain([""]) == [] + [EMPTY] && Plain([]) == [];
    }
  }

  /** Parsing and rendering once more changes nothing, on every input. */
  lemma {:induction false} RenderParseIdempotent(content: string)
    ensures var once := Rendered(OutlineOf(DocumentOf(Numbered(SplitContent(content)))));
      Rendered(OutlineOf(DocumentOf(Numbered(SplitContent(once))))) == once
  {
    ParsedIsPrintable(content);
    ParseOfRender(DocumentOf(Numbered(SplitContent(content))));
  }
}
