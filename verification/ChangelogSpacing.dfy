/** Where blank lines end up: between the items of a compacted list, and between what was there and
    what is appended. */
module ChangelogSpacing {
  import opened TextLines
  import opened ChangelogText
  import opened ChangelogParse
  import opened ChangelogRender
  import opened ChangelogRoundTrip
  import opened DiffScan
  import opened ChangelogItems
  import opened ChangelogRepair
  import opened ChangelogNormalize

  // ---------------------------------------------------------------- compacted lists

  /** The next line that is not blank, if there is one, is a list item. */
  predicate ItemNext(ls: seq<string>) {
    ls == [] || if IsBlank(ls[0]) then ItemNext(ls[1..]) else IsListItem(ls[0])
  }

  /** The lines without those blank ones that no more text of an item follows. */
  function Spaced(ls: seq<string>): seq<string> {
    if ls == [] then []
    else if IsBlank(ls[0]) && ItemNext(ls[1..]) then Spaced(ls[1..])
    else [ls[0]] + Spaced(ls[1..])
  }

  predicate AllBlank(ls: seq<string>) {
    forall l <- ls :: IsBlank(l)
  }

  /** Lines that go on to some text without a list item, before a list item or the end. */
  lemma {:induction false} SpacedBlock(a: seq<string>, b: seq<string>)
    requires (forall l <- a :: !IsListItem(l)) && (b == [] || IsListItem(b[0]))
    ensures Spaced(a + b) == TrimEnd(a) + Spaced(b)
    ensures ItemNext(a + b) <==> AllBlank(a)
  {
    hide IsBlank, IsListItem;
    if a == [] {
      assert a + b == b;
      ItemIsNext(b);
    } else {
      var rest := a[1..];
      assert (a + b)[1..] == rest + b && (a + b)[0] == a[0] && a[0] in a && forall l <- rest :: l in a;
      assert a == [a[0]] + rest;
      SpacedBlock(rest, b);
      TrimEndCons(a[0], rest);
      TrimBlank(rest);
      assert [a[0]] + (TrimEnd(rest) + Spaced(b)) == ([a[0]] + TrimEnd(rest)) + Spaced(b);
      assert [] + Spaced(b) == Spaced(b);
    }
  }

  lemma {:induction false} BlankIsNoItem'(s: string)
    ensures IsBlank(s) ==> !IsListItem(s)
  {
    if IsBlank(s) { BlankIsNoItem(s); }
  }

  lemma {:induction false} ItemIsNext(b: seq<string>)
    requires b == [] || IsListItem(b[0])
    ensures ItemNext(b)
  {
    if b != [] { BlankIsNoItem'(b[0]); }
  }

  lemma {:induction false} TrimBlank(ls: seq<string>)
    ensures AllBlank(ls) ==> TrimEnd(ls) == []
  {
    if ls != [] && AllBlank(ls) {
      assert ls[|ls| - 1] in ls && forall l <- ls[..|ls| - 1] :: l in ls;
      TrimBlank(ls[..|ls| - 1]);
    }
  }

  lemma {:induction false} TrimEndCons(l: string, rest: seq<string>)
    ensures TrimEnd([l] + rest) == if AllBlank(rest) then (if IsBlank(l) then [] else [l]) else [l] + TrimEnd(rest)
  {
    hide IsBlank;
    if rest == [] {
      assert [l] + rest == [l] && [l][..0] == [];
    } else {
      var n := |rest| - 1;
      assert rest == rest[..n] + [rest[n]];
      assert ([l] + rest)[..|rest|] == [l] + rest[..n] && ([l] + rest)[|rest|] == rest[n];
      TrimEndCons(l, rest[..n]);
      assert rest[n] in rest;
    }
  }

  /** The items' texts, one after the other, are the lines spaced. */
  lemma {:induction false} ItemsSpaced(lines: seq<NumberedLine>)
    requires lines != [] ==> IsListItem(lines[0].text)
    ensures Flattened(ItemTexts(lines)) == Spaced(Texts(lines))
    decreases |lines|
  {
    hide IsListItem, IsBlank;
    if lines != [] {
      var n := 1 + UntilItem(lines[1..]);
      var block, rest := Texts(lines)[..n], Texts(lines)[n..];
      assert Texts(lines[..n]) == block && Texts(lines[n..]) == rest && Texts(lines) == block + rest;
      ItemsSpaced(lines[n..]);
      OneItem(lines, n);
      forall l <- block[1..] ensures !IsListItem(l) {
        var i :| 0 <= i < |block[1..]| && block[1..][i] == l;
        assert lines[1..][i].text == l;
      }
      SpacedItem(block, rest);
    }
  }

  lemma {:induction false} OneItem(lines: seq<NumberedLine>, n: nat)
    requires lines != [] && IsListItem(lines[0].text) && n == 1 + UntilItem(lines[1..])
    ensures Flattened(ItemTexts(lines)) == TrimLines(Texts(lines[..n])) + Flattened(ItemTexts(lines[n..]))
  {
    hide IsListItem;
    assert Items(lines) == [ItemOf(lines[..n])] + Items(lines[n..]);
    assert ([ItemOf(lines[..n])] + Items(lines[n..]))[1..] == Items(lines[n..]);
  }

  lemma {:induction false} SpacedItem(block: seq<string>, rest: seq<string>)
    requires block != [] && IsListItem(block[0]) && (forall l <- block[1..] :: !IsListItem(l))
    requires rest == [] || IsListItem(rest[0])
    ensures Spaced(block + rest) == TrimLines(block) + Spaced(rest)
  {
    hide IsListItem, IsBlank;
    BlankIsNoItem'(block[0]);
    assert (block + rest)[1..] == block[1..] + rest;
    assert block == [block[0]] + block[1..];
    SpacedBlock(block[1..], rest);
    TrimEndCons(block[0], block[1..]);
    TrimBlank(block[1..]);
  }

  lemma {:induction false} SpacedKeeps(ls: seq<string>)
    ensures NonBlank(Spaced(ls)) == NonBlank(ls)
  {
    hide IsBlank, ItemNext;
    if ls != [] {
      SpacedKeeps(ls[1..]);
      assert ([ls[0]] + Spaced(ls[1..]))[1..] == Spaced(ls[1..]);
    }
  }

  /** Items hold no more than the lines do. */
  lemma {:induction false} ItemsHold(lines: seq<NumberedLine>)
    ensures |NonBlank(Flattened(ItemTexts(lines)))| <= |NonBlank(Texts(lines))|
  {
    hide IsListItem, IsBlank;
    if lines == [] || IsListItem(lines[0].text) {
      ItemsSpaced(lines);
      SpacedKeeps(Texts(lines));
    } else {
      FirstText(lines);
      ItemsHold(lines[1..]);
      assert Texts(lines)[1..] == Texts(lines[1..]) && Texts(lines)[0] == lines[0].text;
    }
  }

  /** A list that begins with an item loses exactly the blank lines that no more text of an item
      follows; other lines are left as they are, but for blank edges. */
  lemma {:induction false} CompactExactly(ls: seq<string>)
    ensures var t := TrimLines(ls);
      Compact(ls) == if t != [] && IsListItem(t[0]) then Spaced(t) else t
  {
    var t := TrimLines(ls);
    TrimIsTidy(ls);
    hide IsListItem, IsBlank, TrimLines;
    if t != [] {
      if IsListItem(t[0]) {
        ItemsSpaced(Plain(t));
        SpacedKeeps(t);
        SomeItem(Plain(t));
      } else {
        FirstText(Plain(t));
        ItemsHold(Plain(t)[1..]);
        assert Texts(Plain(t)[1..]) == t[1..];
      }
    }
  }

  lemma {:induction false} SomeItem(lines: seq<NumberedLine>)
    requires lines != [] && IsListItem(lines[0].text)
    ensures ItemTexts(lines) != []
  {
  }

  // ---------------------------------------------------------------- appended lines

  /** What was there and what is added stand whole, blank edges aside, and between them one empty
      line, but for list items next to each other. */
  lemma {:induction false} AppendedGap(target: seq<NumberedLine>, source: seq<string>)
    requires TrimLines(source) != [] && TrimLines(Texts(target)) != []
    ensures var a, b := TrimLines(Texts(target)), TrimLines(source);
      Texts(Appended(target, source)) ==
        if IsListItem(a[|a| - 1]) && IsListItem(b[0]) then a + b else a + [""] + b
  {
    hide IsListItem, TrimLines;
    var a := TrimLines(Texts(target));
    assert a + [] == a;
  }

  // ---------------------------------------------------------------- sorted headings

  /** The order of Unreleased's headings, any other title coming last. */
  lemma {:induction false} TitleOrder(title: string, lines: seq<NumberedLine>)
    ensures TitleKey(Subsection(title, lines)) == (
      match title
      case "Breaking Changes" => (0, 0)
      case "Added" => (1, 0)
      case "Changed" => (2, 0)
      case "Fixed" => (3, 0)
      case "Removed" => (4, 0)
      case _ => (5, 0))
  {
    var n := IndexOf(ORDERED_SECTION_TITLES, title);
    assert n < 5 ==> ORDERED_SECTION_TITLES[n] == title;
    assert |"Breaking Changes"| == 16 && |"Added"| == 5 && |"Changed"| == 7 && |"Removed"| == 7;
    assert "Added"[0] == 'A' && "Fixed"[0] == 'F' && "Changed"[0] == 'C' && "Removed"[0] == 'R';
  }

  // ---------------------------------------------------------------- the printed layout

  function PartPieces(parts: seq<Part>): seq<seq<string>> {
    if parts == [] then [] else [["### " + parts[0].title], parts[0].lines] + PartPieces(parts[1..])
  }

  function ReleasePieces(rs: seq<Release>): seq<seq<string>> {
    if rs == [] then [] else
    [[rs[0].heading]] + (if rs[0].leading == [] then [] else [rs[0].leading]) + PartPieces(rs[0].parts)
    + ReleasePieces(rs[1..])
  }

  /** What a document consists of: headings, and the stretches of text between them that are not empty. */
  function Pieces(o: Outline): seq<seq<string>> {
    (if o.prefix == [] then [] else [o.prefix]) + ReleasePieces(o.releases)
  }

  /** One empty line between neighbours. */
  function SetApart(pieces: seq<seq<string>>): seq<string> {
    if pieces == [] then []
    else if |pieces| == 1 then pieces[0]
    else pieces[0] + [""] + SetApart(pieces[1..])
  }

  /** One empty line after each. */
  function Spread(pieces: seq<seq<string>>): seq<string> {
    if pieces == [] then [] else pieces[0] + [""] + Spread(pieces[1..])
  }

  lemma {:induction false} SpreadConcat(a: seq<seq<string>>, b: seq<seq<string>>)
    ensures Spread(a + b) == Spread(a) + Spread(b)
  {
    if a == [] {
      assert a + b == b;
    } else {
      assert (a + b)[1..] == a[1..] + b;
      SpreadConcat(a[1..], b);
    }
  }

  lemma {:induction false} SpreadOne(a: seq<string>)
    ensures Spread([a]) == a + [""]
  {
    assert [a][1..] == [];
  }

  lemma {:induction false} PartsSpread(parts: seq<Part>)
    ensures PartBlocks(parts) == Spread(PartPieces(parts))
  {
    if parts != [] {
      var title, lines := ["### " + parts[0].title], parts[0].lines;
      PartsSpread(parts[1..]);
      SpreadConcat([title, lines], PartPieces(parts[1..]));
      SpreadConcat([title], [lines]);
      assert [title] + [lines] == [title, lines];
      SpreadOne(title);
      SpreadOne(lines);
    }
  }

  lemma {:induction false} ReleasesSpread(rs: seq<Release>)
    ensures ReleaseBlocks(rs) == Spread(ReleasePieces(rs))
  {
    if rs != [] {
      var heading, r := [rs[0].heading], rs[0];
      var lead := if r.leading == [] then [] else [r.leading];
      ReleasesSpread(rs[1..]);
      PartsSpread(r.parts);
      hide Spread, PartBlocks, PartPieces, ReleaseBlocks, ReleasePieces;
      SpreadConcat([heading] + lead + PartPieces(r.parts), ReleasePieces(rs[1..]));
      SpreadConcat([heading] + lead, PartPieces(r.parts));
      SpreadConcat([heading], lead);
      SpreadOne(heading);
      SpreadNone();
      if r.leading != [] { SpreadOne(r.leading); }
      ReleaseSteps(rs);
    }
  }

  lemma {:induction false} SpreadNone()
    ensures Spread([]) == []
  {
  }

  lemma {:induction false} ReleaseSteps(rs: seq<Release>)
    requires rs != []
    ensures ReleaseBlocks(rs) == ReleaseBlock(rs[0]) + ReleaseBlocks(rs[1..])
    ensures ReleasePieces(rs) == [[rs[0].heading]] + (if rs[0].leading == [] then [] else [rs[0].leading])
      + PartPieces(rs[0].parts) + ReleasePieces(rs[1..])
  {
  }

  lemma {:induction false} SpreadIs(pieces: seq<seq<string>>)
    requires pieces != []
    ensures Spread(pieces) == SetApart(pieces) + [""]
  {
    if |pieces| == 1 {
      assert pieces == [pieces[0]];
      SpreadOne(pieces[0]);
    } else {
      SpreadIs(pieces[1..]);
    }
  }

  ghost predicate Solid(pieces: seq<seq<string>>) {
    forall p <- pieces :: p != [] && p[|p| - 1] != ""
  }

  lemma {:induction false} SolidEnd(pieces: seq<seq<string>>)
    requires Solid(pieces) && pieces != []
    ensures SetApart(pieces) != [] && SetApart(pieces)[|SetApart(pieces)| - 1] != ""
  {
    assert pieces[0] in pieces;
    if |pieces| > 1 {
      assert forall p <- pieces[1..] :: p in pieces;
      SolidEnd(pieces[1..]);
    }
  }

  lemma {:induction false} DropOne(ls: seq<string>)
    requires ls != [] ==> ls[|ls| - 1] != ""
    ensures DropEmptyEnd(ls + [""]) == ls == DropEmptyEnd(ls)
  {
    assert (ls + [""])[..|ls|] == ls;
  }

  /** The printed text is its pieces with one empty line between neighbours, and a newline at the end. */
  lemma {:induction false} RenderedLayout(o: Outline)
    requires Solid(Pieces(o))
    ensures Rendered(o) == JoinLines(SetApart(Pieces(o))) + "\n"
  {
    var pieces := Pieces(o);
    ReleasesSpread(o.releases);
    hide Spread, ReleasePieces, ReleaseBlocks, Solid, SetApart, DropEmptyEnd;
    SpreadConcat(if o.prefix == [] then [] else [o.prefix], ReleasePieces(o.releases));
    SpreadNone();
    if o.prefix != [] { SpreadOne(o.prefix); }
    assert Printed(o) == Spread(pieces);
    if pieces == [] {
      DropNothing();
    } else {
      SpreadIs(pieces);
      SolidEnd(pieces);
      DropOne(SetApart(pieces));
    }
  }

  lemma {:induction false} DropNothing()
    ensures DropEmptyEnd([]) == [] == SetApart([])
  {
  }

  lemma {:induction false} SolidConcat(a: seq<seq<string>>, b: seq<seq<string>>)
    requires Solid(a) && Solid(b)
    ensures Solid(a + b)
  {
    assert forall p :: p in a + b <==> p in a || p in b;
  }

  lemma {:induction false} TrimmedSolid(ls: seq<string>)
    ensures TrimLines(ls) != [] ==> Solid([TrimLines(ls)])
  {
    TrimIsTidy(ls);
    hide TrimLines;
  }

  lemma {:induction false} PartSolid(title: string, lines: seq<string>)
    requires Solid([lines])
    ensures Solid([["### " + title], lines])
  {
    assert lines in [lines];
  }

  lemma {:induction false} PiecesCons(p: Part, rest: seq<Part>)
    ensures PartPieces([p] + rest) == [["### " + p.title], p.lines] + PartPieces(rest)
  {
    assert ([p] + rest)[1..] == rest;
  }

  lemma {:induction false} PartsSolid(subs: seq<Subsection>)
    ensures Solid(PartPieces(PartsOf(subs)))
  {
    if subs != [] {
      var lines, rest := TrimLines(Texts(subs[0].lines)), PartsOf(subs[1..]);
      var p := Part(subs[0].title, lines);
      assert PartsOf(subs) == (if lines == [] then [] else [p]) + rest;
      PartsSolid(subs[1..]);
      TrimmedSolid(Texts(subs[0].lines));
      hide PartsOf, PartPieces, Solid, TrimLines;
      if lines == [] {
        assert PartsOf(subs) == rest;
      } else {
        PiecesCons(p, rest);
        PartSolid(p.title, lines);
        SolidConcat([["### " + p.title], lines], PartPieces(rest));
      }
    }
  }

  lemma {:induction false} ReleasesSolid(sections: seq<ReleaseSection>)
    requires forall s <- sections :: s.heading != ""
    ensures Solid(ReleasePieces(ReleasesOf(sections)))
  {
    if sections != [] {
      var r := ReleaseOf(sections[0]);
      ReleasesSolid(sections[1..]);
      PartsSolid(sections[0].subsections);
      TrimmedSolid(Texts(sections[0].leading));
      var lead := if r.leading == [] then [] else [r.leading];
      assert sections[0] in sections && Solid([[r.heading]]) && Solid(lead);
      SolidConcat([[r.heading]], lead);
      SolidConcat([[r.heading]] + lead, PartPieces(r.parts));
      SolidConcat([[r.heading]] + lead + PartPieces(r.parts), ReleasePieces(ReleasesOf(sections[1..])));
      assert ReleasesOf(sections)[1..] == ReleasesOf(sections[1..]) && ReleasesOf(sections)[0] == r;
    }
  }

  /** So is the rendering of any document whose headings are not empty. */
  lemma {:induction false} DocumentLayout(doc: Document)
    requires forall s <- doc.sections :: s.heading != ""
    ensures Rendered(OutlineOf(doc)) == JoinLines(SetApart(Pieces(OutlineOf(doc)))) + "\n"
  {
    var o := OutlineOf(doc);
    ReleasesSolid(doc.sections);
    TrimmedSolid(Texts(doc.prefix));
    hide Solid, Rendered, ReleasePieces, TrimLines, SetApart;
    NothingSolid();
    SolidConcat(if o.prefix == [] then [] else [o.prefix], ReleasePieces(o.releases));
    RenderedLayout(o);
  }

  lemma {:induction false} NothingSolid()
    ensures Solid([])
  {
  }
}
