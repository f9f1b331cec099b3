/** Printing a changelog: what the printer looks at, and the text it produces. */
module ChangelogRender {
  import opened TextLines
  import opened ChangelogText
  import opened ChangelogParse

  // ---------------------------------------------------------------- blank edges

  function TrimStart(ls: seq<string>): seq<string> {
    if ls != [] && IsBlank(ls[0]) then TrimStart(ls[1..]) else ls
  }

  function TrimEnd(ls: seq<string>): seq<string> {
    if ls != [] && IsBlank(ls[|ls| - 1]) then TrimEnd(ls[..|ls| - 1]) else ls
  }

  function TrimLines(ls: seq<string>): seq<string> {
    TrimEnd(TrimStart(ls))
  }

  predicate TidyLines(ls: seq<string>) {
    ls != [] ==> !IsBlank(ls[0]) && !IsBlank(ls[|ls| - 1])
  }

  lemma {:induction false} TrimStartIs(ls: seq<string>, n: nat)
    requires n <= |ls| && (forall i | 0 <= i < n :: IsBlank(ls[i])) && (n < |ls| ==> !IsBlank(ls[n]))
    ensures TrimStart(ls) == ls[n..]
  {
    if n > 0 { TrimStartIs(ls[1..], n - 1); }
  }

  lemma {:induction false} TrimEndIs(ls: seq<string>, n: nat)
    requires n <= |ls| && (forall i | n <= i < |ls| :: IsBlank(ls[i])) && (n > 0 ==> !IsBlank(ls[n - 1]))
    ensures TrimEnd(ls) == ls[..n]
  {
    if n < |ls| {
      TrimEndIs(ls[..|ls| - 1], n);
      assert ls[..|ls| - 1][..n] == ls[..n];
    } else {
      assert ls[..n] == ls;
    }
  }

  method TrimBlankLines(ls: seq<string>) returns (r: seq<string>)
    ensures r == TrimLines(ls)
  {
    hide IsBlank, TrimStart, TrimEnd;
    var start, end := 0, |ls|;
    while start < end && IsBlank(ls[start])
      invariant start <= end && forall i | 0 <= i < start :: IsBlank(ls[i])
    {
      start := start + 1;
    }
    while end > start && IsBlank(ls[end - 1])
      invariant start <= end <= |ls| && forall i | end <= i < |ls| :: IsBlank(ls[i])
    {
      end := end - 1;
    }
    r := ls[start..end];
    TrimStartIs(ls, start);
    TrimEndIs(ls[start..], end - start);
    assert ls[start..][..end - start] == r;
  }

  lemma {:induction false} TrimIsTidy(ls: seq<string>)
    ensures TidyLines(TrimLines(ls)) && forall l <- TrimLines(ls) :: l in ls
    decreases |ls|
  {
    if ls != [] && IsBlank(ls[0]) {
      TrimIsTidy(ls[1..]);
    } else {
      TrimEndTidy(ls);
    }
  }

  lemma {:induction false} TrimEndTidy(ls: seq<string>)
    requires ls != [] ==> !IsBlank(ls[0])
    ensures TidyLines(TrimEnd(ls)) && forall l <- TrimEnd(ls) :: l in ls
  {
    if ls != [] && IsBlank(ls[|ls| - 1]) { TrimEndTidy(ls[..|ls| - 1]); }
  }

  lemma {:induction false} TrimBlankAfter(ls: seq<string>, b: string)
    requires IsBlank(b)
    ensures TrimLines(ls + [b]) == TrimLines(ls)
    decreases |ls|
  {
    if ls == [] {
      assert ([] + [b])[1..] == [];
    } else if IsBlank(ls[0]) {
      assert (ls + [b])[1..] == ls[1..] + [b];
      TrimBlankAfter(ls[1..], b);
    } else {
      assert (ls + [b])[..|ls|] == ls;
    }
  }

  /** Blank lines around tidy lines trim away. */
  lemma {:induction false} TrimAround(ls: seq<string>)
    requires TidyLines(ls)
    ensures TrimLines(ls) == ls && TrimLines([""] + ls) == ls
    ensures TrimLines(ls + [""]) == ls && TrimLines([""] + ls + [""]) == ls
  {
    assert ([""] + ls)[1..] == ls;
    TrimBlankAfter(ls, "");
    TrimBlankAfter([""] + ls, "");
  }

  // ---------------------------------------------------------------- outlines

  datatype Part = Part(title: string, lines: seq<string>)

  datatype Release = Release(heading: string, leading: seq<string>, parts: seq<Part>)

  /** A document with its blank edges trimmed and its empty subsections dropped. */
  datatype Outline = Outline(prefix: seq<string>, releases: seq<Release>)

  function PartsOf(subs: seq<Subsection>): seq<Part> {
    if subs == [] then [] else
    var lines := TrimLines(Texts(subs[0].lines));
    (if lines == [] then [] else [Part(subs[0].title, lines)]) + PartsOf(subs[1..])
  }

  function ReleaseOf(s: ReleaseSection): Release {
    Release(s.heading, TrimLines(Texts(s.leading)), PartsOf(s.subsections))
  }

  function ReleasesOf(sections: seq<ReleaseSection>): seq<Release> {
    if sections == [] then [] else [ReleaseOf(sections[0])] + ReleasesOf(sections[1..])
  }

  function OutlineOf(doc: Document): Outline {
    Outline(TrimLines(Texts(doc.prefix)), ReleasesOf(doc.sections))
  }

  // ---------------------------------------------------------------- printing

  function PartBlock(p: Part): seq<string> {
    [SubsectionLine(p.title)] + [""] + p.lines + [""]
  }

  function PartBlocks(parts: seq<Part>): seq<string> {
    if parts == [] then [] else PartBlock(parts[0]) + PartBlocks(parts[1..])
  }

  function LeadBlock(leading: seq<string>): seq<string> {
    (if leading == [] then [] else [""] + leading) + [""]
  }

  function ReleaseBlock(r: Release): seq<string> {
    [r.heading] + (LeadBlock(r.leading) + PartBlocks(r.parts))
  }

  function ReleaseBlocks(rs: seq<Release>): seq<string> {
    if rs == [] then [] else ReleaseBlock(rs[0]) + ReleaseBlocks(rs[1..])
  }

  function Printed(o: Outline): seq<string> {
    (if o.prefix == [] then [] else o.prefix + [""]) + ReleaseBlocks(o.releases)
  }

  function DropEmptyEnd(ls: seq<string>): seq<string> {
    if ls != [] && ls[|ls| - 1] == "" then DropEmptyEnd(ls[..|ls| - 1]) else ls
  }

  function Rendered(o: Outline): string {
    JoinLines(DropEmptyEnd(Printed(o))) + "\n"
  }

  lemma {:induction false} PartBlocksSnoc(parts: seq<Part>, p: Part)
    ensures PartBlocks(parts + [p]) == PartBlocks(parts) + PartBlock(p)
  {
    if parts == [] {
      assert [p][1..] == [] && [] + [p] == [p];
    } else {
      assert (parts + [p])[1..] == parts[1..] + [p];
      PartBlocksSnoc(parts[1..], p);
    }
  }

  lemma {:induction false} ReleaseBlocksSnoc(rs: seq<Release>, r: Release)
    ensures ReleaseBlocks(rs + [r]) == ReleaseBlocks(rs) + ReleaseBlock(r)
  {
    if rs == [] {
      assert [r][1..] == [] && [] + [r] == [r];
    } else {
      assert (rs + [r])[1..] == rs[1..] + [r];
      ReleaseBlocksSnoc(rs[1..], r);
    }
  }

  lemma {:induction false} PartsOfSnoc(subs: seq<Subsection>, s: Subsection)
    ensures PartsOf(subs + [s]) == PartsOf(subs) +
      var lines := TrimLines(Texts(s.lines)); if lines == [] then [] else [Part(s.title, lines)]
  {
    if subs == [] {
      assert [s][1..] == [] && [] + [s] == [s];
    } else {
      assert (subs + [s])[1..] == subs[1..] + [s];
      PartsOfSnoc(subs[1..], s);
    }
  }

  lemma {:induction false} ReleasesOfSnoc(ss: seq<ReleaseSection>, s: ReleaseSection)
    ensures ReleasesOf(ss + [s]) == ReleasesOf(ss) + [ReleaseOf(s)]
  {
    if ss == [] {
      assert [s][1..] == [] && [] + [s] == [s];
    } else {
      assert (ss + [s])[1..] == ss[1..] + [s];
      ReleasesOfSnoc(ss[1..], s);
    }
  }

  /** One release, pushed onto the output: the separator comes before each subsection. */
  method PrintRelease(section: ReleaseSection, output: seq<string>) returns (r: seq<string>)
    ensures r == output + ReleaseBlock(ReleaseOf(section))
  {
    hide TrimLines, PartsOf, PartBlocks;
    NoParts();
    r := output + [section.heading];
    var leading := TrimBlankLines(Texts(section.leading));
    if leading != [] { r := r + [""] + leading; }
    ghost var start := r;
    assert start + [""] == output + [section.heading] + LeadBlock(leading);
    for i := 0 to |section.subsections|
      invariant r + [""] == start + [""] + PartBlocks(PartsOf(section.subsections[..i]))
    {
      var s := section.subsections[i];
      assert section.subsections[..i + 1] == section.subsections[..i] + [s];
      PartsOfSnoc(section.subsections[..i], s);
      var lines := TrimBlankLines(Texts(s.lines));
      ghost var parts := PartsOf(section.subsections[..i]);
      if lines == [] {
        assert parts + [] == parts;
        continue;
      }
      PartBlocksSnoc(parts, Part(s.title, lines));
      PushPart(r, start, PartBlocks(parts), Part(s.title, lines));
      r := r + ["", SubsectionLine(s.title), ""] + lines;
    }
    assert section.subsections[..|section.subsections|] == section.subsections;
    r := r + [""];
  }

  lemma {:induction false} NoParts()
    ensures PartsOf([]) == [] && PartBlocks([]) == []
  {
  }

  lemma {:induction false} PushPart(r: seq<string>, start: seq<string>, blocks: seq<string>, p: Part)
    requires r + [""] == start + [""] + blocks
    ensures r + ["", SubsectionLine(p.title), ""] + p.lines + [""] == start + [""] + (blocks + PartBlock(p))
  {
    assert r + ["", SubsectionLine(p.title), ""] + p.lines + [""] == (r + [""]) + PartBlock(p);
  }

  method RenderChangelog(doc: Document) returns (text: string)
    ensures text == Rendered(OutlineOf(doc))
  {
    hide ReleaseBlocks, ReleaseBlock, ReleaseOf, ReleasesOf, TrimLines;
    NoReleases();
    var output: seq<string> := [];
    var prefix := TrimBlankLines(Texts(doc.prefix));
    if prefix != [] { output := prefix + [""]; }
    ghost var start := output;
    for i := 0 to |doc.sections|
      invariant output == start + ReleaseBlocks(ReleasesOf(doc.sections[..i]))
    {
      var section := doc.sections[i];
      assert doc.sections[..i + 1] == doc.sections[..i] + [section];
      ReleasesOfSnoc(doc.sections[..i], section);
      ReleaseBlocksSnoc(ReleasesOf(doc.sections[..i]), ReleaseOf(section));
      output := PrintRelease(section, output);
    }
    assert doc.sections[..|doc.sections|] == doc.sections;
    while output != [] && output[|output| - 1] == ""
      invariant DropEmptyEnd(output) == DropEmptyEnd(Printed(OutlineOf(doc)))
      decreases |output|
    {
      output := output[..|output| - 1];
    }
    text := JoinLines(output) + "\n";
  }

  lemma {:induction false} NoReleases()
    ensures ReleasesOf([]) == [] && ReleaseBlocks([]) == []
  {
  }
}
