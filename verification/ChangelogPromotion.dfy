/** Moving promotable items of released sections back to Unreleased. */
module ChangelogPromotion {
  import opened Optional
  import opened TextLines
  import opened ChangelogText
  import opened ChangelogParse
  import opened ChangelogRender
  import opened DiffScan
  import opened ChangelogItems
  import opened ChangelogRepair

  const UNRELEASED: string := "Unreleased"

  // ---------------------------------------------------------------- subsections by title

  /** The last subsection with a title. */
  function LastTitled(subs: seq<Subsection>, title: string): (r: Option<nat>)
    ensures r.Some? ==> r.value < |subs| && subs[r.value].title == title
    ensures r.Some? ==> forall j | r.value < j < |subs| :: subs[j].title != title
    ensures r == None ==> forall j | 0 <= j < |subs| :: subs[j].title != title
  {
    if subs == [] then None
    else if subs[|subs| - 1].title == title then Some(|subs| - 1)
    else LastTitled(subs[..|subs| - 1], title)
  }

  function LinesUnder(subs: seq<Subsection>, title: string): seq<NumberedLine> {
    match LastTitled(subs, title)
    case None => []
    case Some(k) => subs[k].lines
  }

  /** The same subsections, that one's lines replaced; it is created at the end if missing. */
  function PutUnder(subs: seq<Subsection>, title: string, lines: seq<NumberedLine>): seq<Subsection> {
    match LastTitled(subs, title)
    case None => subs + [Subsection(title, lines)]
    case Some(k) => subs[k := Subsection(title, lines)]
  }

  lemma {:induction false} LastTitledIs(subs: seq<Subsection>, title: string, k: nat)
    requires k < |subs| && subs[k].title == title && forall j | k < j < |subs| :: subs[j].title != title
    ensures LastTitled(subs, title) == Some(k)
  {
    var m := LastTitled(subs, title);
    assert m.Some? && !(m.value < k) && !(k < m.value);
  }

  /** Reading back what was put, under its title and any other. */
  lemma {:induction false} PutThenRead(subs: seq<Subsection>, title: string, lines: seq<NumberedLine>, other: string)
    ensures LinesUnder(PutUnder(subs, title, lines), other) == if other == title then lines else LinesUnder(subs, other)
  {
    hide LastTitled;
    var put := PutUnder(subs, title, lines);
    var k := if LastTitled(subs, title).Some? then LastTitled(subs, title).value else |subs|;
    assert put[k] == Subsection(title, lines) && forall j | 0 <= j < |subs| && j != k :: put[j] == subs[j];
    if other == title {
      LastTitledIs(put, title, k);
    } else if LastTitled(subs, other).Some? {
      LastTitledIs(put, other, LastTitled(subs, other).value);
    } else {
      assert LastTitled(put, other) == None;
    }
  }

  // ---------------------------------------------------------------- the promotion

  /** What is taken from some subsections: what they keep, where the rest went, how many items. */
  datatype Moved = Moved(kept: seq<Subsection>, target: seq<Subsection>, count: nat)

  function PromoteOne(sub: Subsection, starts: set<nat>, target: seq<Subsection>): Moved {
    var items := Chosen(Items(sub.lines), starts);
    if items == [] then Moved([sub], target, 0) else
    Moved([sub.(lines := Filtered(sub.lines, RangeLines(items)))],
      PutUnder(target, sub.title, AddAll(LinesUnder(target, sub.title), Bare(items))), |items|)
  }

  function PromoteFrom(subs: seq<Subsection>, starts: set<nat>, target: seq<Subsection>): Moved {
    if subs == [] then Moved([], target, 0) else
    var before := PromoteFrom(subs[..|subs| - 1], starts, target);
    var last := PromoteOne(subs[|subs| - 1], starts, before.target);
    Moved(before.kept + last.kept, last.target, before.count + last.count)
  }

  datatype Promotion = Promotion(sections: seq<ReleaseSection>, target: seq<Subsection>, count: nat)

  function PromoteSections(sections: seq<ReleaseSection>, starts: set<nat>, target: seq<Subsection>): Promotion {
    if sections == [] then Promotion([], target, 0) else
    var before, s := PromoteSections(sections[..|sections| - 1], starts, target), sections[|sections| - 1];
    if s.title == UNRELEASED then before.(sections := before.sections + [s]) else
    var moved := PromoteFrom(s.subsections, starts, before.target);
    Promotion(before.sections + [s.(subsections := moved.kept)], moved.target, before.count + moved.count)
  }

  lemma {:induction false} NothingPromoted(starts: set<nat>, target: seq<Subsection>)
    ensures PromoteFrom([], starts, target) == Moved([], target, 0)
    ensures PromoteSections([], starts, target) == Promotion([], target, 0)
  {
  }

  lemma {:induction false} SubsectionSnoc(subs: seq<Subsection>, j: nat, starts: set<nat>, target: seq<Subsection>)
    requires j < |subs|
    ensures var before := PromoteFrom(subs[..j], starts, target);
      var last := PromoteOne(subs[j], starts, before.target);
      PromoteFrom(subs[..j + 1], starts, target)
        == Moved(before.kept + last.kept, last.target, before.count + last.count)
  {
    hide PromoteOne;
    assert subs[..j + 1][..j] == subs[..j];
  }

  lemma {:induction false} SectionSnoc(sections: seq<ReleaseSection>, i: nat, starts: set<nat>, target: seq<Subsection>)
    requires i < |sections|
    ensures var before, s := PromoteSections(sections[..i], starts, target), sections[i];
      var moved := PromoteFrom(s.subsections, starts, before.target);
      PromoteSections(sections[..i + 1], starts, target) ==
        if s.title == UNRELEASED then before.(sections := before.sections + [s])
        else Promotion(before.sections + [s.(subsections := moved.kept)], moved.target, before.count + moved.count)
  {
    hide PromoteFrom;
    assert sections[..i + 1][..i] == sections[..i];
  }

  method FilterItems(items: seq<ParsedItem>, starts: set<nat>) returns (r: seq<ParsedItem>)
    ensures r == Chosen(items, starts)
  {
    r := [];
    assert items[0..] == items;
    for i := 0 to |items|
      invariant r + Chosen(items[i..], starts) == Chosen(items, starts)
    {
      assert items[i..][1..] == items[i + 1..];
      if items[i].startLine in starts { r := r + [items[i]]; }
    }
  }

  method AddEach(lines: seq<NumberedLine>, items: seq<ParsedItem>) returns (r: seq<NumberedLine>)
    ensures r == AddAll(lines, Bare(items))
  {
    hide HasItem, Appended;
    r := lines;
    for i := 0 to |items|
      invariant r == AddAll(lines, Bare(items[..i]))
    {
      BareSnoc(items, i);
      assert (Bare(items[..i]) + [items[i].lines])[..i] == Bare(items[..i]);
      var has := SubsectionHasItem(r, items[i].lines);
      if !has { r := Appended(r, items[i].lines); }
    }
    assert items[..|items|] == items;
  }

  lemma {:induction false} BareSnoc(items: seq<ParsedItem>, i: nat)
    requires i < |items|
    ensures Bare(items[..i + 1]) == Bare(items[..i]) + [items[i].lines]
  {
    assert items[..i + 1] == items[..i] + [items[i]];
    BareConcat(items[..i], [items[i]]);
    assert [items[i]][1..] == [];
  }

  // ---------------------------------------------------------------- what it promises

  /** Lines as the parser hands them out: numbered in order, without terminators. */
  ghost predicate Parsed(lines: seq<NumberedLine>) {
    Ascending(lines) && CleanLines(Texts(lines))
  }

  ghost predicate ParsedSubs(subs: seq<Subsection>) {
    forall s <- subs :: Parsed(s.lines)
  }

  /** The texts taken out of subsections with a title, in order. */
  function TakenUnder(subs: seq<Subsection>, starts: set<nat>, title: string): seq<seq<string>> {
    if subs == [] then [] else
    var last, before := subs[|subs| - 1], TakenUnder(subs[..|subs| - 1], starts, title);
    if last.title == title then before + Bare(Chosen(Items(last.lines), starts)) else before
  }

  function TakenFrom(sections: seq<ReleaseSection>, starts: set<nat>, title: string): seq<seq<string>> {
    if sections == [] then [] else
    var last, before := sections[|sections| - 1], TakenFrom(sections[..|sections| - 1], starts, title);
    if last.title == UNRELEASED then before else before + TakenUnder(last.subsections, starts, title)
  }

  ghost predicate CleanTarget(target: seq<Subsection>) {
    forall t: string :: CleanLines(Texts(LinesUnder(target, t)))
  }

  /** A subsection after promotion: the same title, and exactly the items that were not taken. */
  ghost predicate Keeps(after: Subsection, before: Subsection, starts: set<nat>) {
    && after.title == before.title && after.lines == Kept(before.lines, starts)
    && Items(after.lines) == Others(Items(before.lines), starts)
  }

  ghost predicate KeepsAll(after: seq<Subsection>, before: seq<Subsection>, starts: set<nat>) {
    |after| == |before| && forall i | 0 <= i < |after| :: Keeps(after[i], before[i], starts)
  }

  lemma {:induction false} NothingChosen(lines: seq<NumberedLine>, starts: set<nat>)
    requires Chosen(Items(lines), starts) == []
    ensures Kept(lines, starts) == lines
    decreases |lines|
  {
    hide *;
    if lines == [] {
      Nothing(starts);
    } else if !IsListItem(lines[0].text) {
      FirstOther(lines, starts);
      NothingChosen(lines[1..], starts);
    } else {
      var n := 1 + UntilItem(lines[1..]);
      FirstItem(lines, starts);
      ItemCons(ItemOf(lines[..n]), Items(lines[n..]), starts);
      NumberOf(lines[..n]);
      assert lines[..n][0] == lines[0];
      NothingChosen(lines[n..], starts);
      assert lines == lines[..n] + lines[n..];
    }
  }

  lemma {:induction false} ChosenClean(lines: seq<NumberedLine>, starts: set<nat>)
    requires CleanLines(Texts(lines))
    ensures CleanItems(Bare(Chosen(Items(lines), starts)))
  {
    hide IsItem, CleanLine, Items;
    ItemsAreItems(lines);
    BareMembers(Items(lines));
    BareMembers(Chosen(Items(lines), starts));
    ChosenAmong(Items(lines), starts);
  }

  lemma {:induction false} ChosenAmong(items: seq<ParsedItem>, starts: set<nat>)
    ensures forall it <- Chosen(items, starts) :: it in items
  {
    if items != [] {
      ChosenAmong(items[1..], starts);
      assert forall it <- items[1..] :: it in items;
    }
  }

  ghost predicate TargetGrew(before: seq<Subsection>, after: seq<Subsection>, title: string, texts: seq<seq<string>>) {
    ItemTexts(LinesUnder(after, title)) == AddMissing(ItemTexts(LinesUnder(before, title)), texts)
  }

  lemma {:induction false} PromoteOneIs(sub: Subsection, starts: set<nat>, target: seq<Subsection>, title: string)
    requires Parsed(sub.lines) && CleanTarget(target)
    ensures var m := PromoteOne(sub, starts, target);
      && KeepsAll(m.kept, [sub], starts) && CleanTarget(m.target)
      && m.count == |Chosen(Items(sub.lines), starts)|
      && TargetGrew(target, m.target, title,
           if sub.title == title then Bare(Chosen(Items(sub.lines), starts)) else [])
  {
    hide Items, Kept, Chosen, Others, Filtered, RangeLines, CleanLine, LinesUnder, PutUnder, AddAll,
      AddMissing, ItemTexts, Ascending;
    var items := Chosen(Items(sub.lines), starts);
    ItemsOfKept(sub.lines, starts);
    AddNothing(ItemTexts(LinesUnder(target, title)));
    if items == [] {
      NothingChosen(sub.lines, starts);
      AddNothing(ItemTexts(LinesUnder(target, sub.title)));
      assert Bare(items) == [];
    } else {
      RemovalExact(sub.lines, starts);
      ChosenClean(sub.lines, starts);
      AddAllIs(LinesUnder(target, sub.title), Bare(items));
      var lines := AddAll(LinesUnder(target, sub.title), Bare(items));
      forall t: string
        ensures LinesUnder(PutUnder(target, sub.title, lines), t)
          == if t == sub.title then lines else LinesUnder(target, t)
      {
        PutThenRead(target, sub.title, lines, t);
      }
    }
  }

  lemma {:induction false} AddNothing(have: seq<seq<string>>)
    ensures AddMissing(have, []) == have
  {
  }

  lemma {:induction false} GrewTwice(
    a: seq<Subsection>, b: seq<Subsection>, c: seq<Subsection>, title: string,
    first: seq<seq<string>>, then_: seq<seq<string>>)
    requires TargetGrew(a, b, title, first) && TargetGrew(b, c, title, then_)
    ensures TargetGrew(a, c, title, first + then_)
  {
    hide AddMissing;
    AddMissingConcat(ItemTexts(LinesUnder(a, title)), first, then_);
  }

  lemma {:induction false} PromoteFromIs(
    subs: seq<Subsection>, starts: set<nat>, target: seq<Subsection>, title: string)
    requires ParsedSubs(subs) && CleanTarget(target)
    ensures var m := PromoteFrom(subs, starts, target);
      && KeepsAll(m.kept, subs, starts) && CleanTarget(m.target)
      && TargetGrew(target, m.target, title, TakenUnder(subs, starts, title))
  {
    hide Parsed, CleanTarget, Keeps, TargetGrew, PromoteOne, Items, Chosen;
    if subs == [] {
      GrewNot(target, title);
    } else {
      var init, last := subs[..|subs| - 1], subs[|subs| - 1];
      assert last in subs && forall s <- init :: s in subs;
      PromoteFromIs(init, starts, target, title);
      var before := PromoteFrom(init, starts, target);
      PromoteOneIs(last, starts, before.target, title);
      var taken := if last.title == title then Bare(Chosen(Items(last.lines), starts)) else [];
      GrewTwice(target, before.target, PromoteOne(last, starts, before.target).target, title,
        TakenUnder(init, starts, title), taken);
      assert TakenUnder(subs, starts, title) == TakenUnder(init, starts, title) + taken;
    }
  }

  lemma {:induction false} GrewNot(target: seq<Subsection>, title: string)
    ensures TargetGrew(target, target, title, [])
  {
    AddNothing(ItemTexts(LinesUnder(target, title)));
  }

  ghost predicate ParsedSections(sections: seq<ReleaseSection>) {
    forall s <- sections :: s.title != UNRELEASED ==> ParsedSubs(s.subsections)
  }

  /** A section after promotion: Unreleased is dealt with apart, the others keep everything but
      the items taken. */
  ghost predicate SectionKeeps(after: ReleaseSection, before: ReleaseSection, starts: set<nat>) {
    if before.title == UNRELEASED then after == before else
    && after.heading == before.heading && after.title == before.title && after.leading == before.leading
    && KeepsAll(after.subsections, before.subsections, starts)
  }

  /** Promotion takes exactly the promotable items out of the released sections, in place, and
      adds those not yet there, in document order, under the same titles of Unreleased. */
  lemma {:induction false} PromotionConserves(
    sections: seq<ReleaseSection>, starts: set<nat>, target: seq<Subsection>, title: string)
    requires ParsedSections(sections) && CleanTarget(target)
    ensures var p := PromoteSections(sections, starts, target);
      && |p.sections| == |sections|
      && (forall i | 0 <= i < |sections| :: SectionKeeps(p.sections[i], sections[i], starts))
      && CleanTarget(p.target)
      && TargetGrew(target, p.target, title, TakenFrom(sections, starts, title))
  {
    hide ParsedSubs, CleanTarget, KeepsAll, TargetGrew, PromoteFrom, TakenUnder;
    if sections == [] {
      GrewNot(target, title);
    } else {
      var init, s := sections[..|sections| - 1], sections[|sections| - 1];
      assert s in sections && forall r <- init :: r in sections;
      PromotionConserves(init, starts, target, title);
      if s.title != UNRELEASED {
        var before := PromoteSections(init, starts, target);
        PromoteFromIs(s.subsections, starts, before.target, title);
        GrewTwice(target, before.target, PromoteFrom(s.subsections, starts, before.target).target, title,
          TakenFrom(init, starts, title), TakenUnder(s.subsections, starts, title));
      }
    }
  }

  lemma {:induction false} TakenHas(sections: seq<ReleaseSection>, starts: set<nat>, i: nat, j: nat, it: ParsedItem)
    requires i < |sections| && sections[i].title != UNRELEASED && j < |sections[i].subsections|
    requires it in Chosen(Items(sections[i].subsections[j].lines), starts)
    ensures it.lines in TakenFrom(sections, starts, sections[i].subsections[j].title)
  {
    hide Items, Chosen, TakenUnder;
    var n := |sections| - 1;
    if i < n {
      TakenHas(sections[..n], starts, i, j, it);
    } else {
      TakenHasHere(sections[i].subsections, starts, j, it);
    }
  }

  lemma {:induction false} TakenHasHere(subs: seq<Subsection>, starts: set<nat>, j: nat, it: ParsedItem)
    requires j < |subs| && it in Chosen(Items(subs[j].lines), starts)
    ensures it.lines in TakenUnder(subs, starts, subs[j].title)
  {
    hide Items, Chosen;
    var n := |subs| - 1;
    if j < n {
      TakenHasHere(subs[..n], starts, j, it);
    } else {
      BareMembers(Chosen(Items(subs[j].lines), starts));
    }
  }

  lemma {:induction false} ChosenOrOther(items: seq<ParsedItem>, starts: set<nat>)
    ensures forall it <- items :: it in Chosen(items, starts) || it in Others(items, starts)
  {
    if items != [] {
      ChosenOrOther(items[1..], starts);
      assert forall it <- items :: it == items[0] || it in items[1..];
    }
  }

  /** No entry is lost: every item of a released subsection is still there, or its text is in
      Unreleased under the same title; and Unreleased keeps what it had. */
  lemma {:induction false} NoEntryLost(
    sections: seq<ReleaseSection>, starts: set<nat>, target: seq<Subsection>, i: nat, j: nat, it: ParsedItem)
    requires ParsedSections(sections) && CleanTarget(target)
    requires i < |sections| && sections[i].title != UNRELEASED && j < |sections[i].subsections|
    requires it in Items(sections[i].subsections[j].lines)
    ensures var p, sub := PromoteSections(sections, starts, target), sections[i].subsections[j];
      && i < |p.sections| && j < |p.sections[i].subsections|
      && (it in Items(p.sections[i].subsections[j].lines) || it.lines in ItemTexts(LinesUnder(p.target, sub.title)))
      && ItemTexts(LinesUnder(target, sub.title)) <= ItemTexts(LinesUnder(p.target, sub.title))
  {
    hide ParsedSections, CleanTarget, Items, Chosen, Others, PromoteSections, ItemTexts, LinesUnder, TakenFrom,
      AddMissing, Kept;
    var sub := sections[i].subsections[j];
    PromotionConserves(sections, starts, target, sub.title);
    assert SectionKeeps(PromoteSections(sections, starts, target).sections[i], sections[i], starts);
    AddMissingHas(ItemTexts(LinesUnder(target, sub.title)), TakenFrom(sections, starts, sub.title));
    ChosenOrOther(Items(sub.lines), starts);
    if it in Chosen(Items(sub.lines), starts) {
      TakenHas(sections, starts, i, j, it);
    }
  }

  /** A second visit to a subsection takes nothing more. The loop makes one when it creates
      Unreleased in front of the section it is working on. */
  lemma {:induction false} SecondVisitTakesNothing(
    sub: Subsection, starts: set<nat>, target: seq<Subsection>, later: seq<Subsection>)
    requires Parsed(sub.lines) && CleanTarget(target)
    ensures var kept := PromoteOne(sub, starts, target).kept;
      |kept| == 1 && PromoteOne(kept[0], starts, later) == Moved(kept, later, 0)
  {
    hide Parsed, CleanTarget, Items, Kept, Chosen, Others, Filtered, RangeLines, AddAll, PutUnder, LinesUnder;
    PromoteOneIs(sub, starts, target, sub.title);
    NothingLeftToTake(Items(sub.lines), starts);
  }

  // ---------------------------------------------------------------- the loop over a document

  /** Where Unreleased stands: its first section, if any. */
  function FirstUnreleased(sections: seq<ReleaseSection>): (r: Option<nat>)
    ensures r.Some? ==> r.value < |sections| && sections[r.value].title == UNRELEASED
    ensures r.Some? ==> forall k | 0 <= k < r.value :: sections[k].title != UNRELEASED
    ensures r == None ==> forall k | 0 <= k < |sections| :: sections[k].title != UNRELEASED
  {
    if sections == [] then None
    else if sections[0].title == UNRELEASED then Some(0)
    else match FirstUnreleased(sections[1..]) { case Some(k) => Some(k + 1) case None => None }
  }

  function NewUnreleased(subs: seq<Subsection>): ReleaseSection {
    ReleaseSection("## [Unreleased]", UNRELEASED, [], subs)
  }

  /** The heading of a created section reads back as Unreleased's. */
  lemma {:induction false} CreatedReadsBack(subs: seq<Subsection>)
    ensures var s := NewUnreleased(subs);
      IsReleaseHeading(s.heading) && ReleaseTitle(s.heading) == s.title == "Unreleased"
  {
    UnreleasedHeading();
  }

  function UnreleasedSubs(sections: seq<ReleaseSection>): seq<Subsection> {
    match FirstUnreleased(sections)
    case Some(u) => sections[u].subsections
    case None => []
  }

  lemma {:induction false} SectionsKept(sections: seq<ReleaseSection>, starts: set<nat>, target: seq<Subsection>)
    ensures var p := PromoteSections(sections, starts, target);
      |p.sections| == |sections|
      && forall k | 0 <= k < |sections| ::
        p.sections[k].title == sections[k].title && (sections[k].title == UNRELEASED ==> p.sections[k] == sections[k])
  {
    if sections != [] { SectionsKept(sections[..|sections| - 1], starts, target); }
  }

  /** The loop over one section's subsections. `target` is Unreleased's subsections; the first item
      that needs the section creates it. */
  method PromoteSection(subs: seq<Subsection>, starts: set<nat>, target: Option<seq<Subsection>>)
    returns (kept: seq<Subsection>, after: Option<seq<Subsection>>, promoted: nat)
    ensures var moved := PromoteFrom(subs, starts, if target.Some? then target.value else []);
      && kept == moved.kept && promoted == moved.count
      && after == if target.Some? || promoted > 0 then Some(moved.target) else None
  {
    hide Items, Chosen, Filtered, RangeLines, AddAll, PutUnder, LinesUnder, HasItem, Appended, LastTitled, PromoteFrom;
    ghost var was := if target.Some? then target.value else [];
    kept, after, promoted := [], target, 0;
    NothingPromoted(starts, was);
    for j := 0 to |subs|
      invariant var moved := PromoteFrom(subs[..j], starts, was);
        && kept == moved.kept && promoted == moved.count
        && (after.Some? <==> target.Some? || promoted > 0)
        && moved.target == if after.Some? then after.value else was
    {
      SubsectionSnoc(subs, j, starts, was);
      var all := ParseItems(subs[j].lines);
      var items := FilterItems(all, starts);
      if items == [] { kept := kept + [subs[j]]; continue; }
      var linesToRemove := LineRangeSet(items);
      kept := kept + [subs[j].(lines := Filtered(subs[j].lines, linesToRemove))];
      var current := if after.Some? then after.value else [];
      var lines := AddEach(LinesUnder(current, subs[j].title), items);
      after := Some(PutUnder(current, subs[j].title, lines));
      promoted := promoted + |items|;
    }
    assert subs[..|subs|] == subs;
  }

  /** The sections, Unreleased apart, when the first `n` have been dealt with. */
  function Body(sections: seq<ReleaseSection>, n: nat, starts: set<nat>): (r: seq<ReleaseSection>)
    requires n <= |sections|
    ensures |r| == |sections|
  {
    SectionsKept(sections[..n], starts, UnreleasedSubs(sections));
    PromoteSections(sections[..n], starts, UnreleasedSubs(sections)).sections + sections[n..]
  }

  lemma {:induction false} BodyKeeps(sections: seq<ReleaseSection>, n: nat, starts: set<nat>, k: nat)
    requires n <= |sections| && k < |sections|
    ensures var r := Body(sections, n, starts)[k];
      r.title == sections[k].title && (k >= n || sections[k].title == UNRELEASED ==> r == sections[k])
  {
    SectionsKept(sections[..n], starts, UnreleasedSubs(sections));
  }

  /** ... and with Unreleased, in its place or put in front. */
  function Placed(body: seq<ReleaseSection>, u: Option<nat>, target: Option<seq<Subsection>>): seq<ReleaseSection>
    requires u.Some? ==> u.value < |body| && target.Some?
  {
    if u.Some? then body[u.value := body[u.value].(subsections := target.value)]
    else if target.Some? then [NewUnreleased(target.value)] + body
    else body
  }

  /** The document's sections after promotion: Unreleased, in its place or new in front, holds what
      was taken. */
  function AfterPromotion(sections: seq<ReleaseSection>, starts: set<nat>): seq<ReleaseSection> {
    var u, p := FirstUnreleased(sections), PromoteSections(sections, starts, UnreleasedSubs(sections));
    SectionsKept(sections, starts, UnreleasedSubs(sections));
    Placed(p.sections, u, if u.Some? || p.count > 0 then Some(p.target) else None)
  }

  predicate Created(sections: seq<ReleaseSection>, target: Option<seq<Subsection>>) {
    FirstUnreleased(sections) == None && target.Some?
  }

  /** The loop as it goes over the live array, before the visit at `i`: the first `n` sections have
      been dealt with. */
  ghost predicate Visiting(
    sections: seq<ReleaseSection>, starts: set<nat>, live: seq<ReleaseSection>, target: Option<seq<Subsection>>,
    promoted: nat, n: nat, i: nat)
  {
    && n <= |sections| && (FirstUnreleased(sections).Some? ==> target.Some?)
    && live == Placed(Body(sections, n, starts), FirstUnreleased(sections), target)
    && (var p := PromoteSections(sections[..n], starts, UnreleasedSubs(sections));
        promoted == p.count && p.target == if target.Some? then target.value else [])
    && (target.Some? <==> FirstUnreleased(sections).Some? || promoted > 0)
    && (Created(sections, target) ==> n > 0) && i == if Created(sections, target) then n + 1 else n
  }

  /** What a visit writes. Putting Unreleased in front moves the section at hand up by one. */
  function Rewritten(
    live: seq<ReleaseSection>, i: nat, unreleased: Option<nat>, kept: seq<Subsection>, after: Option<seq<Subsection>>)
    : seq<ReleaseSection>
    requires i < |live| && (unreleased.Some? ==> unreleased.value < |live| && after.Some?)
  {
    var section := live[i].(subsections := kept);
    if unreleased.Some? then
      var next := live[i := section];
      next[unreleased.value := next[unreleased.value].(subsections := after.value)]
    else if after.Some? then ([NewUnreleased([])] + live)[i + 1 := section][0 := NewUnreleased(after.value)]
    else live[i := section]
  }

  lemma {:induction false} FirstVisit(sections: seq<ReleaseSection>, starts: set<nat>)
    ensures var u := FirstUnreleased(sections);
      Visiting(sections, starts, sections, if u.Some? then Some(sections[u.value].subsections) else None, 0, 0, 0)
  {
    hide PromoteSections, FirstUnreleased;
    NothingPromoted(starts, UnreleasedSubs(sections));
    assert sections[..0] == [] && Body(sections, 0, starts) == sections;
  }

  /** What stands at the position of the visit. */
  lemma {:induction false} AtVisit(
    sections: seq<ReleaseSection>, starts: set<nat>, live: seq<ReleaseSection>, target: Option<seq<Subsection>>,
    promoted: nat, n: nat, i: nat)
    requires Visiting(sections, starts, live, target, promoted, n, i)
    ensures |live| == |sections| + if Created(sections, target) then 1 else 0
    ensures n <= |sections| && (n < |sections| <==> i < |live|)
    ensures FirstUnreleased(sections).Some? ==> target.Some?
    ensures n < |sections| ==>
      live[i].title == sections[n].title && (sections[n].title != UNRELEASED ==> live[i] == sections[n])
  {
    hide PromoteSections, FirstUnreleased, Body;
    if n < |sections| { BodyKeeps(sections, n, starts, n); }
  }

  lemma {:induction false} BodyStep(sections: seq<ReleaseSection>, n: nat, starts: set<nat>)
    requires n < |sections|
    ensures var was, s := UnreleasedSubs(sections), sections[n];
      var p, q := PromoteSections(sections[..n], starts, was), PromoteSections(sections[..n + 1], starts, was);
      var moved := PromoteFrom(s.subsections, starts, p.target);
      var before, next := Body(sections, n, starts), Body(sections, n + 1, starts);
      && before[n] == s
      && (s.title == UNRELEASED ==> q.target == p.target && q.count == p.count && next == before)
      && (s.title != UNRELEASED ==>
            && q.target == moved.target && q.count == p.count + moved.count
            && next == before[n := s.(subsections := moved.kept)])
  {
    hide PromoteSections, FirstUnreleased, UnreleasedSubs, PromoteFrom;
    var was, s := UnreleasedSubs(sections), sections[n];
    SectionSnoc(sections, n, starts, was);
    SectionsKept(sections[..n], starts, was);
    var before := PromoteSections(sections[..n], starts, was).sections;
    assert before + sections[n..] == (before + [s]) + sections[n + 1..];
    assert forall t :: (before + [s] + sections[n + 1..])[n := t] == (before + [t]) + sections[n + 1..];
  }

  /** Unreleased itself is passed over. */
  lemma {:induction false} SkipVisit(
    sections: seq<ReleaseSection>, starts: set<nat>, live: seq<ReleaseSection>, target: Option<seq<Subsection>>,
    promoted: nat, n: nat, i: nat)
    requires Visiting(sections, starts, live, target, promoted, n, i)
    requires n < |sections| && sections[n].title == UNRELEASED
    ensures Visiting(sections, starts, live, target, promoted, n + 1, i + 1)
  {
    hide PromoteSections, FirstUnreleased, UnreleasedSubs, PromoteFrom, Body, Placed;
    BodyStep(sections, n, starts);
  }

  lemma {:induction false} NothingMoved(subs: seq<Subsection>, starts: set<nat>, target: seq<Subsection>)
    ensures PromoteFrom(subs, starts, target).count == 0 ==> PromoteFrom(subs, starts, target).target == target
  {
    if subs != [] { NothingMoved(subs[..|subs| - 1], starts, target); }
  }

  /** What a visit writes leaves the section changed, and Unreleased with the new target. */
  lemma {:induction false} PlacedStep(
    body: seq<ReleaseSection>, u: Option<nat>, target: Option<seq<Subsection>>, n: nat, i: nat,
    kept: seq<Subsection>, after: Option<seq<Subsection>>)
    requires n < |body| && (u.Some? ==> u.value < |body| && u.value != n && target.Some?)
    requires target.Some? ==> after.Some?
    requires i == if u == None && target.Some? then n + 1 else n
    ensures var live := Placed(body, u, target);
      && i < |live| && live[i] == body[n]
      && (u.Some? ==> u.value < |live|)
      && Rewritten(live, i, if u == None && target.Some? then Some(0) else u, kept, after)
        == Placed(body[n := body[n].(subsections := kept)], u, after)
  {
  }

  /** The first visit to a released section. */
  lemma {:induction false} VisitOnce(
    sections: seq<ReleaseSection>, starts: set<nat>, live: seq<ReleaseSection>, target: Option<seq<Subsection>>,
    promoted: nat, n: nat, i: nat, unreleased: Option<nat>, moved: Moved, after: Option<seq<Subsection>>)
    requires Visiting(sections, starts, live, target, promoted, n, i)
    requires n < |sections| && sections[n].title != UNRELEASED
    requires unreleased
      == if FirstUnreleased(sections) == None && target.Some? then Some(0) else FirstUnreleased(sections)
    requires moved == PromoteFrom(sections[n].subsections, starts, if target.Some? then target.value else [])
    requires after == if target.Some? || moved.count > 0 then Some(moved.target) else None
    ensures i < |live| && (unreleased.Some? ==> unreleased.value < |live| && after.Some?)
    ensures Visiting(sections, starts, Rewritten(live, i, unreleased, moved.kept, after), after, promoted + moved.count,
      n + 1, if target == None && after.Some? then i + 2 else i + 1)
  {
    NotHere(sections, n);
    hide *;
    VisitingParts(sections, starts, live, target, promoted, n, i);
    BodyStep(sections, n, starts);
    NothingMoved(sections[n].subsections, starts, if target.Some? then target.value else []);
    PlacedStep(Body(sections, n, starts), FirstUnreleased(sections), target, n, i, moved.kept, after);
    var next := Rewritten(live, i, unreleased, moved.kept, after);
    assert next == Placed(Body(sections, n + 1, starts), FirstUnreleased(sections), after);
    VisitingMade(sections, starts, next, after, promoted + moved.count,
      n + 1, if target == None && after.Some? then i + 2 else i + 1);
  }

  lemma {:induction false} NotHere(sections: seq<ReleaseSection>, n: nat)
    requires n < |sections| && sections[n].title != UNRELEASED
    ensures FirstUnreleased(sections) != Some(n)
  {
  }

  /** The invariant, taken apart ... */
  lemma {:induction false} VisitingParts(
    sections: seq<ReleaseSection>, starts: set<nat>, live: seq<ReleaseSection>, target: Option<seq<Subsection>>,
    promoted: nat, n: nat, i: nat)
    requires Visiting(sections, starts, live, target, promoted, n, i)
    ensures n <= |sections| && (FirstUnreleased(sections).Some? ==> target.Some?)
    ensures live == Placed(Body(sections, n, starts), FirstUnreleased(sections), target)
    ensures var p := PromoteSections(sections[..n], starts, UnreleasedSubs(sections));
      promoted == p.count && p.target == if target.Some? then target.value else []
    ensures target.Some? <==> FirstUnreleased(sections).Some? || promoted > 0
    ensures i == if FirstUnreleased(sections) == None && target.Some? then n + 1 else n
  {
    hide PromoteSections, FirstUnreleased, Body, Placed, UnreleasedSubs;
  }

  /** ... and put together. */
  lemma {:induction false} VisitingMade(
    sections: seq<ReleaseSection>, starts: set<nat>, live: seq<ReleaseSection>, target: Option<seq<Subsection>>,
    promoted: nat, n: nat, i: nat)
    requires 0 < n <= |sections| && (FirstUnreleased(sections).Some? ==> target.Some?)
    requires live == Placed(Body(sections, n, starts), FirstUnreleased(sections), target)
    requires var p := PromoteSections(sections[..n], starts, UnreleasedSubs(sections));
      promoted == p.count && p.target == if target.Some? then target.value else []
    requires target.Some? <==> FirstUnreleased(sections).Some? || promoted > 0
    requires i == if FirstUnreleased(sections) == None && target.Some? then n + 1 else n
    ensures Visiting(sections, starts, live, target, promoted, n, i)
  {
    hide PromoteSections, FirstUnreleased, Body, Placed, UnreleasedSubs;
  }

  /** The visit after Unreleased has been put in front meets the same section and changes nothing. */
  lemma {:induction false} VisitAgain(
    sections: seq<ReleaseSection>, starts: set<nat>, live: seq<ReleaseSection>, target: Option<seq<Subsection>>,
    promoted: nat, n: nat, i: nat)
    requires ParsedSections(sections) && CleanTarget(UnreleasedSubs(sections))
    requires Visiting(sections, starts, live, target, promoted, n, i + 1) && Created(sections, target)
    ensures 0 < n && i == n < |live| && live[i].title == sections[n - 1].title != UNRELEASED
    ensures PromoteFrom(live[i].subsections, starts, target.value) == Moved(live[i].subsections, target.value, 0)
    ensures Rewritten(live, i, Some(0), live[i].subsections, target) == live
  {
    hide PromoteSections, FirstUnreleased, UnreleasedSubs, PromoteFrom, CleanTarget, ParsedSubs, Body;
    var was := UnreleasedSubs(sections);
    BodyStep(sections, n - 1, starts);
    var p := PromoteSections(sections[..n - 1], starts, was);
    assert sections[n - 1] in sections;
    assert ParsedSections(sections[..n - 1]);
    PromotionConserves(sections[..n - 1], starts, was, "");
    TwiceTakesNothing(sections[n - 1].subsections, starts, p.target, target.value);
  }

  /** Promoting from what a promotion left takes nothing. */
  lemma {:induction false} TwiceTakesNothing(
    subs: seq<Subsection>, starts: set<nat>, target: seq<Subsection>, later: seq<Subsection>)
    requires ParsedSubs(subs) && CleanTarget(target)
    ensures var kept := PromoteFrom(subs, starts, target).kept;
      PromoteFrom(kept, starts, later) == Moved(kept, later, 0)
  {
    hide Parsed, CleanTarget, PromoteOne;
    if subs == [] {
      NothingPromoted(starts, later);
    } else {
      var init, last := subs[..|subs| - 1], subs[|subs| - 1];
      assert last in subs && forall s <- init :: s in subs;
      var before := PromoteFrom(init, starts, target);
      PromoteFromIs(init, starts, target, "");
      TwiceTakesNothing(init, starts, target, later);
      SecondVisitTakesNothing(last, starts, before.target, later);
      var one := PromoteOne(last, starts, before.target).kept;
      assert (before.kept + one)[..|before.kept|] == before.kept && one == [one[0]];
    }
  }

  lemma {:induction false} LastVisit(
    sections: seq<ReleaseSection>, starts: set<nat>, live: seq<ReleaseSection>, target: Option<seq<Subsection>>,
    promoted: nat, n: nat, i: nat)
    requires Visiting(sections, starts, live, target, promoted, n, i) && n == |sections|
    ensures live == AfterPromotion(sections, starts)
    ensures promoted == PromoteSections(sections, starts, UnreleasedSubs(sections)).count
  {
    hide PromoteSections, FirstUnreleased, UnreleasedSubs;
    assert sections[..n] == sections;
    SectionsKept(sections, starts, UnreleasedSubs(sections));
    assert Body(sections, n, starts) == PromoteSections(sections, starts, UnreleasedSubs(sections)).sections;
  }

  /** The whole loop over the live array of sections. */
  method PromoteItems(sections: seq<ReleaseSection>, starts: set<nat>)
    returns (live: seq<ReleaseSection>, promoted: nat)
    requires ParsedSections(sections) && CleanTarget(UnreleasedSubs(sections))
    ensures live == AfterPromotion(sections, starts)
    ensures promoted == PromoteSections(sections, starts, UnreleasedSubs(sections)).count
  {
    hide ParsedSections, CleanTarget, PromoteFrom, PromoteSections, Visiting, UnreleasedSubs, FirstUnreleased,
      AfterPromotion;
    var unreleased := FirstUnreleased(sections);
    var target: Option<seq<Subsection>> := None;
    if unreleased.Some? { target := Some(sections[unreleased.value].subsections); }
    live, promoted := sections, 0;
    FirstVisit(sections, starts);
    ghost var n, again := 0, false;
    var i := 0;
    while i < |live|
      invariant Visiting(sections, starts, live, target, promoted, n, if again then i + 1 else i)
      invariant again ==> Created(sections, target)
      invariant unreleased == if Created(sections, target) then Some(0) else FirstUnreleased(sections)
      decreases |live| - i + if unreleased == None then 2 else 0
    {
      ghost var at := if again then i + 1 else i;
      AtVisit(sections, starts, live, target, promoted, n, at);
      if again { VisitAgain(sections, starts, live, target, promoted, n, i); }
      if live[i].title == UNRELEASED {
        SkipVisit(sections, starts, live, target, promoted, n, i);
        n, i := n + 1, i + 1;
        continue;
      }
      ghost var moved := PromoteFrom(live[i].subsections, starts, if target.Some? then target.value else []);
      var kept, after, count := PromoteSection(live[i].subsections, starts, target);
      if !again { VisitOnce(sections, starts, live, target, promoted, n, i, unreleased, moved, after); }
      ghost var was, next := target, Rewritten(live, i, unreleased, kept, after);
      if unreleased == None && after.Some? {
        live, unreleased := [NewUnreleased([])] + live, Some(0);
        live := live[i + 1 := live[i + 1].(subsections := kept)];
      } else {
        live := live[i := live[i].(subsections := kept)];
      }
      if unreleased.Some? {
        var u := unreleased.value;
        live := live[u := live[u].(subsections := after.value)];
      }
      assert live == next;
      target, promoted := after, promoted + count;
      if again { again := false; } else { n, again := n + 1, was == None && after.Some?; }
      i := i + 1;
    }
    if again { VisitAgain(sections, starts, live, target, promoted, n, i); }
    AtVisit(sections, starts, live, target, promoted, n, i);
    LastVisit(sections, starts, live, target, promoted, n, i);
  }

  lemma {:induction false} FirstUnreleasedIs(sections: seq<ReleaseSection>, u: Option<nat>)
    requires u.Some? ==> u.value < |sections| && sections[u.value].title == UNRELEASED
    requires forall k | 0 <= k < (if u.Some? then u.value else |sections|) :: sections[k].title != UNRELEASED
    ensures FirstUnreleased(sections) == u
  {
    var v := FirstUnreleased(sections);
    assert u.Some? && v.Some? ==> !(u.value < v.value) && !(v.value < u.value);
  }

  lemma {:induction false} NothingCounted(sections: seq<ReleaseSection>, starts: set<nat>, target: seq<Subsection>)
    ensures var p := PromoteSections(sections, starts, target); p.count == 0 ==> p.target == target
  {
    hide PromoteFrom;
    if sections != [] {
      var init, s := sections[..|sections| - 1], sections[|sections| - 1];
      NothingCounted(init, starts, target);
      NothingMoved(s.subsections, starts, PromoteSections(init, starts, target).target);
    }
  }

  /** Where everything stands afterwards. */
  lemma {:induction false} AfterParts(sections: seq<ReleaseSection>, starts: set<nat>)
    ensures var out, p := AfterPromotion(sections, starts), PromoteSections(sections, starts, UnreleasedSubs(sections));
      var shift := if FirstUnreleased(sections) == None && p.count > 0 then 1 else 0;
      && |p.sections| == |sections| && |out| == |sections| + shift && UnreleasedSubs(out) == p.target
      && forall i | 0 <= i < |sections| && sections[i].title != UNRELEASED :: out[i + shift] == p.sections[i]
  {
    var out, was := AfterPromotion(sections, starts), UnreleasedSubs(sections);
    var p := PromoteSections(sections, starts, was);
    hide PromoteSections, FirstUnreleased;
    SectionsKept(sections, starts, was);
    NothingCounted(sections, starts, was);
    match FirstUnreleased(sections)
    case Some(u) => FirstUnreleasedIs(out, Some(u));
    case None =>
      if p.count > 0 { FirstUnreleasedIs(out, Some(0)); } else { FirstUnreleasedIs(out, None); }
  }

  /** What the loop does to the document: every released section, in its place, keeps all but the
      items taken, and the Unreleased section gains those it lacks, in order. */
  lemma {:induction false} DocumentConserves(sections: seq<ReleaseSection>, starts: set<nat>, title: string)
    requires ParsedSections(sections) && CleanTarget(UnreleasedSubs(sections))
    ensures var out, was := AfterPromotion(sections, starts), UnreleasedSubs(sections);
      var created := FirstUnreleased(sections) == None && PromoteSections(sections, starts, was).count > 0;
      var shift := if created then 1 else 0;
      && |out| == |sections| + shift
      && (forall i | 0 <= i < |sections| && sections[i].title != UNRELEASED ::
            SectionKeeps(out[i + shift], sections[i], starts))
      && TargetGrew(was, UnreleasedSubs(out), title, TakenFrom(sections, starts, title))
  {
    hide *;
    PromotionConserves(sections, starts, UnreleasedSubs(sections), title);
    AfterParts(sections, starts);
  }

  // ---------------------------------------------------------------- parsed documents

  lemma {:induction false} PartOfParsed(lines: seq<NumberedLine>, i: nat, j: nat)
    requires Parsed(lines) && i <= j <= |lines|
    ensures Parsed(lines[i..j])
  {
    hide CleanLine;
    forall l <- Texts(lines[i..j]) ensures CleanLine(l) {
      var k :| 0 <= k < j - i && Texts(lines[i..j])[k] == l;
      assert Texts(lines)[i + k] == l;
    }
  }

  lemma {:induction false} SubsectionsParsed(lines: seq<NumberedLine>)
    requires Parsed(lines)
    ensures ParsedSubs(Subsections(lines))
    decreases |lines|
  {
    hide Parsed, SubsectionTitle, UntilSubsection;
    if lines != [] {
      var n := UntilSubsection(lines[1..]);
      FirstSubsection(lines);
      PartOfParsed(lines, 1, 1 + n);
      PartOfParsed(lines, 1 + n, |lines|);
      assert lines[1 + n..|lines|] == lines[1 + n..];
      SubsectionsParsed(lines[1 + n..]);
    }
  }

  lemma {:induction false} SectionsParsed(lines: seq<NumberedLine>)
    requires Parsed(lines)
    ensures forall s <- Sections(lines) :: ParsedSubs(s.subsections)
    decreases |lines|
  {
    hide Parsed, ParsedSubs, Subsections, UntilRelease, UntilSubsection, ReleaseTitle;
    if lines != [] {
      var n := UntilRelease(lines[1..]);
      var body := lines[1..1 + n];
      FirstSection(lines);
      PartOfParsed(lines, 1, 1 + n);
      var k := UntilSubsection(body);
      PartOfParsed(body, k, |body|);
      assert body[k..|body|] == body[k..];
      SubsectionsParsed(body[k..]);
      PartOfParsed(lines, 1 + n, |lines|);
      assert lines[1 + n..|lines|] == lines[1 + n..];
      SectionsParsed(lines[1 + n..]);
    }
  }

  /** Every document the parser returns meets the conditions above. */
  lemma {:induction false} DocumentParsed(content: string)
    ensures var doc := DocumentOf(Numbered(SplitContent(content)));
      && ParsedSections(doc.sections) && CleanTarget(UnreleasedSubs(doc.sections))
      && forall s <- doc.sections :: CleanTarget(s.subsections)
  {
    hide SplitContent, CleanLine, Sections, LinesUnder;
    var lines := Numbered(SplitContent(content));
    var n := UntilRelease(lines);
    ContentClean(content);
    assert Texts(lines) == SplitContent(content);
    PartOfParsed(lines, n, |lines|);
    assert lines[n..|lines|] == lines[n..];
    SectionsParsed(lines[n..]);
    forall s <- Sections(lines[n..]) ensures CleanTarget(s.subsections) {
      forall t: string ensures CleanLines(Texts(LinesUnder(s.subsections, t))) {
        LinesFrom(s.subsections, t);
      }
    }
    NoTarget();
    var u := FirstUnreleased(Sections(lines[n..]));
    if u.Some? { assert Sections(lines[n..])[u.value] in Sections(lines[n..]); }
  }

  lemma {:induction false} NoTarget()
    ensures CleanTarget([])
  {
  }

  lemma {:induction false} LinesFrom(subs: seq<Subsection>, title: string)
    ensures LinesUnder(subs, title) == [] || exists s <- subs :: s.lines == LinesUnder(subs, title)
  {
    if LastTitled(subs, title).Some? { assert subs[LastTitled(subs, title).value] in subs; }
  }
}
