/** Putting one section in order: empty subsections dropped, repeated headings merged, list spacing
    compacted, and Unreleased's headings sorted. */
module ChangelogNormalize {
  import opened Optional
  import opened StableSort
  import opened TextLines
  import opened ChangelogText
  import opened ChangelogParse
  import opened ChangelogRender
  import opened ChangelogRoundTrip
  import opened DiffScan
  import opened ChangelogItems
  import opened ChangelogRepair
  import opened ChangelogPromotion

  const ORDERED_SECTION_TITLES: seq<string> := ["Breaking Changes", "Added", "Changed", "Fixed", "Removed"]

  function IndexOf(titles: seq<string>, title: string): (n: nat)
    ensures n <= |titles| && (n < |titles| ==> titles[n] == title) && forall i | 0 <= i < n :: titles[i] != title
  {
    if titles == [] || titles[0] == title then 0 else 1 + IndexOf(titles[1..], title)
  }

  function TitleKey(s: Subsection): (int, int) {
    (IndexOf(ORDERED_SECTION_TITLES, s.title), 0)
  }

  // ---------------------------------------------------------------- list spacing

  function Flattened(texts: seq<seq<string>>): seq<string> {
    if texts == [] then [] else texts[0] + Flattened(texts[1..])
  }

  /** Items set next to each other, unless that would lose a line that is in no item. */
  function Compact(ls: seq<string>): seq<string> {
    var trimmed := TrimLines(ls);
    if trimmed == [] then [] else
    var texts := ItemTexts(Plain(trimmed));
    if texts == [] || NonBlank(trimmed) != NonBlank(Flattened(texts)) then trimmed else Flattened(texts)
  }

  lemma {:induction false} CompactKeepsLines(ls: seq<string>)
    ensures NonBlank(Compact(ls)) == NonBlank(ls)
    ensures Compact(ls) != [] ==> NonBlank(ls) != []
  {
    hide ItemTexts, IsBlank;
    NonBlankTrim(ls);
    TrimIsTidy(ls);
  }

  // ---------------------------------------------------------------- one section

  datatype Normal = Normal(subs: seq<Subsection>, merged: nat, removed: nat)

  function NormalizeOne(before: Normal, s: Subsection): Normal {
    var lines := Compact(TrimLines(Texts(s.lines)));
    if lines == [] then before.(removed := before.removed + 1) else
    match LastTitled(before.subs, s.title)
    case Some(k) =>
      Normal(before.subs[k := Subsection(s.title, Appended(before.subs[k].lines, lines))],
        before.merged + 1, before.removed)
    case None => before.(subs := before.subs + [Subsection(s.title, Plain(lines))])
  }

  function Normalized(subs: seq<Subsection>): Normal {
    if subs == [] then Normal([], 0, 0) else NormalizeOne(Normalized(subs[..|subs| - 1]), subs[|subs| - 1])
  }

  /** `subsectionByTitle`: where each title stands. */
  ghost predicate ByTitle(index: map<string, nat>, subs: seq<Subsection>) {
    && (forall t <- index :: index[t] < |subs| && subs[index[t]].title == t)
    && forall i | 0 <= i < |subs| :: subs[i].title in index && index[subs[i].title] == i
  }

  lemma {:induction false} Lookup(index: map<string, nat>, subs: seq<Subsection>, title: string)
    requires ByTitle(index, subs)
    ensures title in index ==> LastTitled(subs, title) == Some(index[title])
    ensures title !in index ==> LastTitled(subs, title) == None
  {
    hide LastTitled;
    var k := LastTitled(subs, title);
    if title in index { LastTitledIs(subs, title, index[title]); }
  }

  lemma {:induction false} NothingNormalized()
    ensures Normalized([]) == Normal([], 0, 0)
  {
  }

  lemma {:induction false} NormalizedSnoc(subs: seq<Subsection>, i: nat)
    requires i < |subs|
    ensures Normalized(subs[..i + 1]) == NormalizeOne(Normalized(subs[..i]), subs[i])
  {
    hide NormalizeOne;
    assert subs[..i + 1][..i] == subs[..i];
  }

  method NormalizeSection(section: ReleaseSection) returns (r: ReleaseSection, merged: nat, removed: nat)
    ensures var n := Normalized(section.subsections);
      && merged == n.merged && removed == n.removed
      && r == ReleaseSection(section.heading, section.title, Plain(TrimLines(Texts(section.leading))),
           if section.title == UNRELEASED then Sort(n.subs, TitleKey) else n.subs)
  {
    hide Compact, TrimLines, Appended, LastTitled, Sort, Normalized;
    var subs := section.subsections;
    NothingNormalized();
    var index: map<string, nat>, out: seq<Subsection> := map[], [];
    merged, removed := 0, 0;
    for i := 0 to |subs|
      invariant Normal(out, merged, removed) == Normalized(subs[..i]) && ByTitle(index, out)
    {
      NormalizedSnoc(subs, i);
      Lookup(index, out, subs[i].title);
      var lines := Compact(TrimLines(Texts(subs[i].lines)));
      if lines == [] {
        removed := removed + 1;
      } else if subs[i].title in index {
        var k := index[subs[i].title];
        out := out[k := Subsection(subs[i].title, Appended(out[k].lines, lines))];
        merged := merged + 1;
      } else {
        index := index[subs[i].title := |out|];
        out := out + [Subsection(subs[i].title, Plain(lines))];
      }
    }
    assert subs[..|subs|] == subs;
    if section.title == UNRELEASED { out := Sort(out, TitleKey); }
    r := ReleaseSection(section.heading, section.title, Plain(TrimLines(Texts(section.leading))), out);
  }

  // ---------------------------------------------------------------- what it promises

  /** The lines of all subsections with a title, blank ones aside, in order. */
  function LinesTitled(subs: seq<Subsection>, title: string): seq<string> {
    if subs == [] then [] else
    var last, before := subs[|subs| - 1], LinesTitled(subs[..|subs| - 1], title);
    if last.title == title then before + NonBlank(Texts(last.lines)) else before
  }

  ghost predicate DistinctTitles(subs: seq<Subsection>) {
    forall i, j | 0 <= i < j < |subs| :: subs[i].title != subs[j].title
  }

  ghost predicate NoneEmpty(subs: seq<Subsection>) {
    forall s <- subs :: NonBlank(Texts(s.lines)) != []
  }

  /** `put` is what now stands under the title of `s`. */
  ghost predicate PutBy(before: Normal, s: Subsection, put: seq<NumberedLine>) {
    var n := NormalizeOne(before, s);
    && n.subs == PutUnder(before.subs, s.title, put)
    && NonBlank(Texts(put)) == NonBlank(Texts(LinesUnder(before.subs, s.title))) + NonBlank(Texts(s.lines))
    && n.removed == before.removed && |n.subs| + n.merged == |before.subs| + before.merged + 1
  }

  lemma {:induction false} PutIsNormal(before: Normal, s: Subsection)
    ensures NonBlank(Texts(s.lines)) == [] ==> NormalizeOne(before, s) == before.(removed := before.removed + 1)
    ensures NonBlank(Texts(s.lines)) != [] ==> exists put: seq<NumberedLine> :: PutBy(before, s, put)
  {
    hide Compact, TrimLines, Appended, LastTitled, IsBlank;
    var lines := Compact(TrimLines(Texts(s.lines)));
    NonBlankTrim(Texts(s.lines));
    CompactKeepsLines(TrimLines(Texts(s.lines)));
    assert NonBlank([]) == [];
    if lines != [] {
      var there := LinesUnder(before.subs, s.title);
      AppendKeepsLines(there, lines);
      var put := if LastTitled(before.subs, s.title).Some? then Appended(there, lines) else Plain(lines);
      assert NormalizeOne(before, s).subs == PutUnder(before.subs, s.title, put);
      assert LastTitled(before.subs, s.title) == None ==> NonBlank(Texts(there)) == [];
      assert PutBy(before, s, put);
    }
  }

  lemma {:induction false} PutKeepsShape(subs: seq<Subsection>, title: string, lines: seq<NumberedLine>)
    requires DistinctTitles(subs) && NoneEmpty(subs) && NonBlank(Texts(lines)) != []
    ensures DistinctTitles(PutUnder(subs, title, lines)) && NoneEmpty(PutUnder(subs, title, lines))
  {
    hide NonBlank, LastTitled;
  }

  /** Normalising loses no line: under each title the lines that are not blank are those of all
      subsections with it, in order; titles are then distinct, none is empty, and the headings
      merged and dropped account for the rest. */
  lemma {:induction false} NormalizeConserves(subs: seq<Subsection>, title: string)
    ensures var n := Normalized(subs);
      && NonBlank(Texts(LinesUnder(n.subs, title))) == LinesTitled(subs, title)
      && DistinctTitles(n.subs) && NoneEmpty(n.subs)
      && |n.subs| + n.merged + n.removed == |subs|
  {
    hide NonBlank, LinesUnder, PutUnder, NormalizeOne, Compact, DistinctTitles, NoneEmpty;
    if subs == [] {
      NoLinesTitled(title);
    } else {
      var init, s := subs[..|subs| - 1], subs[|subs| - 1];
      var before := Normalized(init);
      NormalizeConserves(init, title);
      NormalizeConserves(init, s.title);
      PutIsNormal(before, s);
      if NonBlank(Texts(s.lines)) != [] {
        var put: seq<NumberedLine> :| PutBy(before, s, put);
        PutThenRead(before.subs, s.title, put, title);
        PutKeepsShape(before.subs, s.title, put);
      }
    }
  }

  lemma {:induction false} NoLinesTitled(title: string)
    ensures NonBlank(Texts(LinesUnder([], title))) == [] && DistinctTitles([]) && NoneEmpty([])
  {
  }

  /** Sorting Unreleased's headings moves whole subsections only. */
  lemma {:induction false} SortKeepsLines(subs: seq<Subsection>, title: string)
    requires DistinctTitles(subs)
    ensures LinesUnder(Sort(subs, TitleKey), title) == LinesUnder(subs, title)
    ensures Sorted(Sort(subs, TitleKey), TitleKey)
  {
    hide LastTitled, Sort, TitleKey;
    var sorted := Sort(subs, TitleKey);
    SortSorts(subs, TitleKey);
    SortMembers(subs, TitleKey);
    var a, b := LastTitled(subs, title), LastTitled(sorted, title);
    if a.Some? { assert subs[a.value] in sorted; }
    if b.Some? { assert sorted[b.value] in subs; }
  }
}
