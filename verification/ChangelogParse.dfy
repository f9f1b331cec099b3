/** The changelog parser and printer, as loops and as what they compute. */
module ChangelogParse {
  import opened TextLines
  import opened ChangelogText

  datatype NumberedLine = NumberedLine(text: string, lineNumber: nat)

  datatype Subsection = Subsection(title: string, lines: seq<NumberedLine>)

  datatype ReleaseSection = ReleaseSection(
    heading: string, title: string, leading: seq<NumberedLine>, subsections: seq<Subsection>)

  datatype Document = Document(prefix: seq<NumberedLine>, sections: seq<ReleaseSection>)

  function Numbered(lines: seq<string>): seq<NumberedLine> {
    seq(|lines|, i requires 0 <= i < |lines| => NumberedLine(lines[i], i + 1))
  }

  function Texts(lines: seq<NumberedLine>): (r: seq<string>)
    ensures |r| == |lines|
  {
    seq(|lines|, i requires 0 <= i < |lines| => lines[i].text)
  }

  /** Bracketed title of a release heading. */
  function ReleaseTitle(heading: string): string {
    if IsReleaseHeading(heading) then heading[4..4 + FirstClose(heading[4..])] else heading
  }

  lemma {:induction false} FirstCloseAt(title: string, rest: string)
    requires ']' !in title
    ensures FirstClose(title + "]" + rest) == |title|
  {
    if title == "" {
      assert title + "]" + rest == "]" + rest;
    } else {
      assert (title + "]" + rest)[1..] == title[1..] + "]" + rest;
      FirstCloseAt(title[1..], rest);
    }
  }

  lemma {:induction false} FirstCloseIs(s: string)
    ensures FirstClose(s) <= |s| && ']' !in s[..FirstClose(s)] && (FirstClose(s) < |s| ==> s[FirstClose(s)] == ']')
  {
    if s != "" && s[0] != ']' {
      FirstCloseIs(s[1..]);
      assert s[..FirstClose(s)] == [s[0]] + s[1..][..FirstClose(s[1..])];
    }
  }

  /** Release headings are a bracketed title after two hashes and a space, whatever follows. */
  lemma {:induction false} ReleaseHeadingIs(title: string, rest: string)
    requires title != "" && ']' !in title
    ensures IsReleaseHeading("## [" + title + "]" + rest) && ReleaseTitle("## [" + title + "]" + rest) == title
  {
    var line := "## [" + title + "]" + rest;
    assert line[..4] == "## [" && line[4..] == title + "]" + rest;
    FirstCloseAt(title, rest);
    assert line[4..4 + |title|] == title;
  }

  lemma {:induction false} OnlyReleaseHeadings(line: string)
    requires IsReleaseHeading(line)
    ensures ReleaseTitle(line) != "" && ']' !in ReleaseTitle(line) && "## [" + ReleaseTitle(line) + "]" <= line
  {
    var n := FirstClose(line[4..]);
    FirstCloseIs(line[4..]);
    assert line[..4 + n + 1] == line[..4] + line[4..][..n] + [line[4..][n]];
    assert line[4..4 + n] == line[4..][..n];
  }

  /** The heading that promotion looks for. */
  lemma {:induction false} UnreleasedHeading()
    ensures IsReleaseHeading("## [Unreleased]") && ReleaseTitle("## [Unreleased]") == "Unreleased"
  {
    assert "## [Unreleased]" == "## [" + "Unreleased" + "]" + "";
    ReleaseHeadingIs("Unreleased", "");
  }

  // ---------------------------------------------------------------- parsing

  /** Length of the longest start without a release heading. */
  function UntilRelease(lines: seq<NumberedLine>): (n: nat)
    ensures n <= |lines|
  {
    if lines == [] || IsReleaseHeading(lines[0].text) then 0 else 1 + UntilRelease(lines[1..])
  }

  function UntilSubsection(lines: seq<NumberedLine>): (n: nat)
    ensures n <= |lines|
  {
    if lines == [] || IsSubsectionHeading(lines[0].text) then 0 else 1 + UntilSubsection(lines[1..])
  }

  function Subsections(lines: seq<NumberedLine>): seq<Subsection>
    decreases |lines|
  {
    if lines == [] then [] else
    var n := UntilSubsection(lines[1..]);
    [Subsection(SubsectionTitle(lines[0].text), lines[1..1 + n])] + Subsections(lines[1 + n..])
  }

  function SectionOf(heading: string, body: seq<NumberedLine>): ReleaseSection {
    var n := UntilSubsection(body);
    ReleaseSection(heading, ReleaseTitle(heading), body[..n], Subsections(body[n..]))
  }

  function Sections(lines: seq<NumberedLine>): seq<ReleaseSection>
    decreases |lines|
  {
    if lines == [] then [] else
    var n := UntilRelease(lines[1..]);
    [SectionOf(lines[0].text, lines[1..1 + n])] + Sections(lines[1 + n..])
  }

  function DocumentOf(lines: seq<NumberedLine>): Document {
    var n := UntilRelease(lines);
    Document(lines[..n], Sections(lines[n..]))
  }

  lemma {:induction false} UntilReleaseIs(lines: seq<NumberedLine>, n: nat)
    requires n <= |lines| && (forall i | 0 <= i < n :: !IsReleaseHeading(lines[i].text))
    requires n < |lines| ==> IsReleaseHeading(lines[n].text)
    ensures UntilRelease(lines) == n
  {
    if n > 0 { UntilReleaseIs(lines[1..], n - 1); }
  }

  lemma {:induction false} UntilSubsectionIs(lines: seq<NumberedLine>, n: nat)
    requires n <= |lines| && (forall i | 0 <= i < n :: !IsSubsectionHeading(lines[i].text))
    requires n < |lines| ==> IsSubsectionHeading(lines[n].text)
    ensures UntilSubsection(lines) == n
  {
    if n > 0 { UntilSubsectionIs(lines[1..], n - 1); }
  }

  method ReadUntilRelease(lines: seq<NumberedLine>, start: nat) returns (taken: seq<NumberedLine>, index: nat)
    requires start <= |lines|
    ensures index == start + UntilRelease(lines[start..]) && index <= |lines| && taken == lines[start..index]
  {
    taken, index := [], start;
    while index < |lines| && !IsReleaseHeading(lines[index].text)
      invariant start <= index <= |lines| && taken == lines[start..index]
      invariant forall i | start <= i < index :: !IsReleaseHeading(lines[i].text)
    {
      taken := taken + [lines[index]];
      index := index + 1;
    }
    UntilReleaseIs(lines[start..], index - start);
  }

  method ReadUntilSubsection(lines: seq<NumberedLine>, start: nat) returns (taken: seq<NumberedLine>, index: nat)
    requires start <= |lines|
    ensures index == start + UntilSubsection(lines[start..]) && index <= |lines| && taken == lines[start..index]
  {
    taken, index := [], start;
    while index < |lines| && !IsSubsectionHeading(lines[index].text)
      invariant start <= index <= |lines| && taken == lines[start..index]
      invariant forall i | start <= i < index :: !IsSubsectionHeading(lines[i].text)
    {
      taken := taken + [lines[index]];
      index := index + 1;
    }
    UntilSubsectionIs(lines[start..], index - start);
  }

  method ParseReleaseSection(heading: string, body: seq<NumberedLine>) returns (s: ReleaseSection)
    ensures s == SectionOf(heading, body)
  {
    hide UntilSubsection, SubsectionTitle, Subsections, IsSubsectionHeading;
    NoSubsections();
    var leading, index := ReadUntilSubsection(body, 0);
    assert body[0..] == body && body[0..index] == body[..index];
    var subsections: seq<Subsection> := [];
    while index < |body|
      invariant index <= |body|
      invariant subsections + Subsections(body[index..]) == Subsections(body[UntilSubsection(body)..])
    {
      var headingLine := body[index];
      var lines, next := ReadUntilSubsection(body, index + 1);
      NextSubsection(body, index);
      subsections := subsections + [Subsection(SubsectionTitle(headingLine.text), lines)];
      index := next;
    }
    assert body[index..] == [];
    s := ReleaseSection(heading, ReleaseTitle(heading), leading, subsections);
  }

  lemma {:induction false} NoSubsections()
    ensures Subsections([]) == [] && Sections([]) == []
  {
  }

  lemma {:induction false} NextSubsection(body: seq<NumberedLine>, index: nat)
    requires index < |body|
    ensures var n := index + 1 + UntilSubsection(body[index + 1..]);
      n <= |body| && Subsections(body[index..])
        == [Subsection(SubsectionTitle(body[index].text), body[index + 1..n])] + Subsections(body[n..])
  {
    hide Subsections, SubsectionTitle, IsSubsectionHeading;
    var rest := body[index..];
    FirstSubsection(rest);
    var n := UntilSubsection(rest[1..]);
    hide UntilSubsection;
    assert rest[1..] == body[index + 1..];
    assert rest[1..1 + n] == body[index + 1..index + 1 + n] && rest[1 + n..] == body[index + 1 + n..];
  }

  method ParseChangelog(content: string) returns (doc: Document)
    ensures doc == DocumentOf(Numbered(SplitContent(content)))
  {
    hide UntilRelease, SectionOf, SplitContent, Sections, IsReleaseHeading;
    NoSubsections();
    var lines := Numbered(SplitContent(content));
    var prefix, index := ReadUntilRelease(lines, 0);
    assert lines[0..] == lines;
    var sections: seq<ReleaseSection> := [];
    while index < |lines|
      invariant index <= |lines|
      invariant sections + Sections(lines[index..]) == Sections(lines[UntilRelease(lines)..])
    {
      var headingLine := lines[index];
      var body, next := ReadUntilRelease(lines, index + 1);
      NextSection(lines, index);
      var section := ParseReleaseSection(headingLine.text, body);
      sections := sections + [section];
      index := next;
    }
    assert lines[index..] == [];
    doc := Document(prefix, sections);
  }

  lemma {:induction false} NextSection(lines: seq<NumberedLine>, index: nat)
    requires index < |lines|
    ensures var n := index + 1 + UntilRelease(lines[index + 1..]);
      n <= |lines| && Sections(lines[index..])
        == [SectionOf(lines[index].text, lines[index + 1..n])] + Sections(lines[n..])
  {
    hide Sections, UntilRelease, SectionOf;
    var rest := lines[index..];
    FirstSection(rest);
    var n := UntilRelease(rest[1..]);
    assert rest[1..] == lines[index + 1..];
    assert rest[1..1 + n] == lines[index + 1..index + 1 + n] && rest[1 + n..] == lines[index + 1 + n..];
  }

  lemma {:induction false} FirstSection(lines: seq<NumberedLine>)
    requires lines != []
    ensures var n := UntilRelease(lines[1..]);
      Sections(lines) == [SectionOf(lines[0].text, lines[1..1 + n])] + Sections(lines[1 + n..])
  {
    hide SectionOf, IsReleaseHeading;
  }

  lemma {:induction false} FirstSubsection(lines: seq<NumberedLine>)
    requires lines != []
    ensures var n := UntilSubsection(lines[1..]);
      Subsections(lines) == [Subsection(SubsectionTitle(lines[0].text), lines[1..1 + n])] + Subsections(lines[1 + n..])
  {
    hide SubsectionTitle, IsSubsectionHeading;
  }

  // ---------------------------------------------------------------- nothing is lost

  /** All lines of the parts, headings aside, in document order. */
  function SubsectionLines(subs: seq<Subsection>): seq<NumberedLine> {
    if subs == [] then [] else subs[0].lines + SubsectionLines(subs[1..])
  }

  function SectionLines(sections: seq<ReleaseSection>): seq<NumberedLine> {
    if sections == [] then [] else
    sections[0].leading + SubsectionLines(sections[0].subsections) + SectionLines(sections[1..])
  }

  predicate IsHeading(line: NumberedLine) {
    IsReleaseHeading(line.text) || IsSubsectionHeading(line.text)
  }

  function BodyLines(lines: seq<NumberedLine>): seq<NumberedLine> {
    if lines == [] then [] else (if IsHeading(lines[0]) then [] else [lines[0]]) + BodyLines(lines[1..])
  }

  lemma {:induction false} BodyConcat(a: seq<NumberedLine>, b: seq<NumberedLine>)
    ensures BodyLines(a + b) == BodyLines(a) + BodyLines(b)
  {
    if a == [] {
      assert a + b == b;
    } else {
      assert (a + b)[1..] == a[1..] + b;
      BodyConcat(a[1..], b);
    }
  }

  lemma {:induction false} AllBody(lines: seq<NumberedLine>)
    requires forall l <- lines :: !IsHeading(l)
    ensures BodyLines(lines) == lines
  {
    if lines != [] { AllBody(lines[1..]); }
  }

  lemma {:induction false} UntilSubsectionStops(lines: seq<NumberedLine>)
    ensures var n := UntilSubsection(lines);
      (forall l <- lines[..n] :: !IsSubsectionHeading(l.text)) && (n < |lines| ==> IsSubsectionHeading(lines[n].text))
  {
    if lines != [] && !IsSubsectionHeading(lines[0].text) {
      UntilSubsectionStops(lines[1..]);
      var n := UntilSubsection(lines[1..]);
      assert lines[..1 + n] == [lines[0]] + lines[1..][..n];
    }
  }

  lemma {:induction false} UntilReleaseStops(lines: seq<NumberedLine>)
    ensures var n := UntilRelease(lines);
      (forall l <- lines[..n] :: !IsReleaseHeading(l.text)) && (n < |lines| ==> IsReleaseHeading(lines[n].text))
  {
    if lines != [] && !IsReleaseHeading(lines[0].text) {
      UntilReleaseStops(lines[1..]);
      var n := UntilRelease(lines[1..]);
      assert lines[..1 + n] == [lines[0]] + lines[1..][..n];
    }
  }

  lemma {:induction false} SubsectionsLoseNothing(lines: seq<NumberedLine>)
    requires lines != [] ==> IsSubsectionHeading(lines[0].text)
    requires forall l <- lines :: !IsReleaseHeading(l.text)
    ensures SubsectionLines(Subsections(lines)) == BodyLines(lines)
    decreases |lines|
  {
    if lines != [] {
      var n := UntilSubsection(lines[1..]);
      var part, rest := lines[1..1 + n], lines[1 + n..];
      UntilSubsectionStops(lines[1..]);
      hide Subsections, SubsectionTitle, IsSubsectionHeading, IsReleaseHeading, UntilSubsection, BodyLines,
        SubsectionLines;
      assert part == lines[1..][..n] && lines[1..] == part + rest;
      AllBody(part);
      BodyConcat(part, rest);
      SubsectionsLoseNothing(rest);
      FirstSubsection(lines);
      SubsectionLinesCons(Subsection(SubsectionTitle(lines[0].text), part), Subsections(rest));
      HeadingIsNoBody(lines);
    }
  }

  lemma {:induction false} SubsectionLinesCons(s: Subsection, rest: seq<Subsection>)
    ensures SubsectionLines([s] + rest) == s.lines + SubsectionLines(rest)
  {
  }

  lemma {:induction false} SectionLinesCons(s: ReleaseSection, rest: seq<ReleaseSection>)
    ensures SectionLines([s] + rest) == s.leading + SubsectionLines(s.subsections) + SectionLines(rest)
  {
  }

  lemma {:induction false} SectionsLoseNothing(lines: seq<NumberedLine>)
    requires lines != [] ==> IsReleaseHeading(lines[0].text)
    ensures SectionLines(Sections(lines)) == BodyLines(lines)
    decreases |lines|
  {
    if lines != [] {
      var n := UntilRelease(lines[1..]);
      var body, rest := lines[1..1 + n], lines[1 + n..];
      UntilReleaseStops(lines[1..]);
      hide Sections, SectionOf, UntilRelease, IsReleaseHeading, IsSubsectionHeading, BodyLines, SectionLines,
        SubsectionLines;
      assert body == lines[1..][..n] && lines[1..] == body + rest;
      BodyConcat(body, rest);
      SectionsLoseNothing(rest);
      SectionLosesNothing(lines[0].text, body);
      FirstSection(lines);
      SectionLinesCons(SectionOf(lines[0].text, body), Sections(rest));
      HeadingIsNoBody(lines);
    }
  }

  lemma {:induction false} HeadingIsNoBody(lines: seq<NumberedLine>)
    requires lines != [] && (IsReleaseHeading(lines[0].text) || IsSubsectionHeading(lines[0].text))
    ensures BodyLines(lines) == BodyLines(lines[1..])
  {
    hide IsReleaseHeading, IsSubsectionHeading;
  }

  lemma {:induction false} SectionLosesNothing(heading: string, body: seq<NumberedLine>)
    requires forall l <- body :: !IsReleaseHeading(l.text)
    ensures SectionOf(heading, body).leading + SubsectionLines(SectionOf(heading, body).subsections) == BodyLines(body)
  {
    var k := UntilSubsection(body);
    UntilSubsectionStops(body);
    assert body == body[..k] + body[k..];
    AllBody(body[..k]);
    BodyConcat(body[..k], body[k..]);
    SubsectionsLoseNothing(body[k..]);
  }

  /** Parsing keeps every line that is not a heading, with its number, in order. */
  lemma {:induction false} ParseLosesNothing(lines: seq<NumberedLine>)
    ensures var doc := DocumentOf(lines);
      && doc.prefix <= lines && (forall l <- doc.prefix :: !IsReleaseHeading(l.text))
      && SectionLines(doc.sections) == BodyLines(lines[|doc.prefix|..])
  {
    UntilReleaseStops(lines);
    SectionsLoseNothing(lines[UntilRelease(lines)..]);
  }

  // ---------------------------------------------------------------- headings

  /** The texts of the release headings. */
  function ReleaseLines(lines: seq<NumberedLine>): seq<string> {
    if lines == [] then [] else
    (if IsReleaseHeading(lines[0].text) then [lines[0].text] else []) + ReleaseLines(lines[1..])
  }

  lemma {:induction false} SkipToRelease(lines: seq<NumberedLine>)
    ensures ReleaseLines(lines) == ReleaseLines(lines[UntilRelease(lines)..])
  {
    hide IsReleaseHeading;
    if lines == [] || IsReleaseHeading(lines[0].text) {
      assert lines[0..] == lines;
    } else {
      var n := UntilRelease(lines[1..]);
      assert UntilRelease(lines) == 1 + n && ReleaseLines(lines) == ReleaseLines(lines[1..]);
      hide ReleaseLines, UntilRelease;
      SkipToRelease(lines[1..]);
      assert lines[1 + n..] == lines[1..][n..];
    }
  }

  predicate HeadedBy(s: ReleaseSection, heading: string) {
    s.heading == heading && s.title != "" && ']' !in s.title && "## [" + s.title + "]" <= heading
  }

  predicate AllHeaded(sections: seq<ReleaseSection>, headings: seq<string>) {
    |sections| == |headings| && forall i | 0 <= i < |sections| :: HeadedBy(sections[i], headings[i])
  }

  lemma {:induction false} HeadedCons(s: ReleaseSection, heading: string, ss: seq<ReleaseSection>, hs: seq<string>)
    requires HeadedBy(s, heading) && AllHeaded(ss, hs)
    ensures AllHeaded([s] + ss, [heading] + hs)
  {
    hide HeadedBy;
  }

  lemma {:induction false} SectionsHeaded(lines: seq<NumberedLine>)
    requires lines != [] ==> IsReleaseHeading(lines[0].text)
    ensures AllHeaded(Sections(lines), ReleaseLines(lines))
    decreases |lines|
  {
    if lines != [] {
      var n := UntilRelease(lines[1..]);
      UntilReleaseStops(lines[1..]);
      hide Sections, ReleaseLines, UntilRelease, IsReleaseHeading, HeadedBy, SectionOf, AllHeaded;
      SectionsHeaded(lines[1 + n..]);
      FirstHeaded(lines);
      HeadedCons(SectionOf(lines[0].text, lines[1..1 + n]), lines[0].text, Sections(lines[1 + n..]),
        ReleaseLines(lines[1 + n..]));
    }
  }

  lemma {:induction false} FirstHeaded(lines: seq<NumberedLine>)
    requires lines != [] && IsReleaseHeading(lines[0].text)
    ensures var n := UntilRelease(lines[1..]);
      && Sections(lines) == [SectionOf(lines[0].text, lines[1..1 + n])] + Sections(lines[1 + n..])
      && ReleaseLines(lines) == [lines[0].text] + ReleaseLines(lines[1 + n..])
      && HeadedBy(SectionOf(lines[0].text, lines[1..1 + n]), lines[0].text)
  {
    SkipToRelease(lines[1..]);
    OnlyReleaseHeadings(lines[0].text);
    assert lines[1..][UntilRelease(lines[1..])..] == lines[1 + UntilRelease(lines[1..])..];
    hide IsReleaseHeading, UntilRelease;
  }

  /** There is one section for each release heading, in order, and its title is the bracketed one. */
  lemma {:induction false} HeadingsRead(lines: seq<NumberedLine>)
    ensures AllHeaded(DocumentOf(lines).sections, ReleaseLines(lines))
  {
    SkipToRelease(lines);
    UntilReleaseStops(lines);
    SectionsHeaded(lines[UntilRelease(lines)..]);
    hide Sections, ReleaseLines, AllHeaded;
  }
}
