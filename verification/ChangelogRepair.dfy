/** Repairing a changelog: moving items back to Unreleased and putting a section's subsections in
    order, without losing an entry. */
module ChangelogRepair {
  import opened Optional
  import opened TextLines
  import opened ChangelogText
  import opened ChangelogParse
  import opened ChangelogRender
  import opened ChangelogRoundTrip
  import opened DiffScan
  import opened ChangelogItems

  // ---------------------------------------------------------------- the text of items

  function Bare(items: seq<ParsedItem>): (r: seq<seq<string>>)
    ensures |r| == |items|
  {
    if items == [] then [] else [items[0].lines] + Bare(items[1..])
  }

  /** The texts of a subsection's items, in order. */
  function ItemTexts(lines: seq<NumberedLine>): seq<seq<string>> {
    Bare(Items(lines))
  }

  /** One item's text: a list line first and no other, no blank line at the end. */
  predicate IsItem(text: seq<string>) {
    text != [] && IsListItem(text[0]) && TidyLines(text) && forall i | 0 < i < |text| :: !IsListItem(text[i])
  }

  lemma {:induction false} BareConcat(a: seq<ParsedItem>, b: seq<ParsedItem>)
    ensures Bare(a + b) == Bare(a) + Bare(b)
  {
    if a == [] {
      assert a + b == b;
    } else {
      assert (a + b)[1..] == a[1..] + b;
      BareConcat(a[1..], b);
    }
  }

  lemma {:induction false} BlankIsNoItem(s: string)
    requires IsBlank(s)
    ensures !IsListItem(s)
  {
    if s != "" {
      assert forall c <- s[1..] :: c in s;
      BlankIsNoItem(s[1..]);
    }
  }

  lemma {:induction false} TextsParts(lines: seq<NumberedLine>, n: nat)
    requires n <= |lines|
    ensures Texts(lines[..n]) == Texts(lines)[..n] && Texts(lines[n..]) == Texts(lines)[n..]
  {
  }

  lemma {:induction false} FirstText(lines: seq<NumberedLine>)
    requires lines != []
    ensures !IsListItem(lines[0].text) ==> ItemTexts(lines) == ItemTexts(lines[1..])
    ensures IsListItem(lines[0].text) ==> (
      var n := 1 + UntilItem(lines[1..]);
      ItemTexts(lines) == [TrimLines(Texts(lines)[..n])] + ItemTexts(lines[n..]))
  {
    hide Items, IsListItem, UntilItem, TrimLines;
    if !IsListItem(lines[0].text) {
      FirstOther(lines, {});
    } else {
      var n := 1 + UntilItem(lines[1..]);
      FirstItem(lines, {});
      TextsParts(lines, n);
      assert ([ItemOf(lines[..n])] + Items(lines[n..]))[1..] == Items(lines[n..]);
    }
  }

  /** Line numbers do not matter to the texts. */
  lemma {:induction false} SameTexts(a: seq<NumberedLine>, b: seq<NumberedLine>)
    requires Texts(a) == Texts(b)
    ensures ItemTexts(a) == ItemTexts(b) && UntilItem(a) == UntilItem(b)
    decreases |a|
  {
    hide IsListItem, ItemTexts, TrimLines;
    assert |a| == |b|;
    forall i | 0 <= i < |a| ensures a[i].text == b[i].text {
      assert a[i].text == Texts(a)[i] && b[i].text == Texts(b)[i];
    }
    UntilItemIs(b, UntilItem(a));
    if a == [] {
      assert b == [];
    } else {
      FirstText(a);
      FirstText(b);
      TextsParts(a, 1);
      TextsParts(b, 1);
      SameTexts(a[1..], b[1..]);
      var n := 1 + UntilItem(a[1..]);
      TextsParts(a, n);
      TextsParts(b, n);
      SameTexts(a[n..], b[n..]);
    }
  }

  lemma {:induction false} NoTexts()
    ensures ItemTexts([]) == []
  {
  }

  /** A blank line at the end belongs to the last item, where it does not count. */
  lemma {:induction false} BlankAfter(lines: seq<NumberedLine>, l: NumberedLine)
    requires IsBlank(l.text)
    ensures ItemTexts(lines + [l]) == ItemTexts(lines)
    decreases |lines|
  {
    hide *;
    BlankIsNoItem(l.text);
    if lines == [] {
      assert [] + [l] == [l] && [l][1..] == [];
      FirstText([l]);
    } else {
      var more := lines + [l];
      assert more[1..] == lines[1..] + [l];
      FirstText(lines);
      FirstText(more);
      if !IsListItem(lines[0].text) {
        BlankAfter(lines[1..], l);
      } else {
        var n := 1 + UntilItem(lines[1..]);
        if n < |lines| {
          UntilItemIs(more[1..], n - 1);
          assert more[n..] == lines[n..] + [l];
          BlankAfter(lines[n..], l);
          TextsConcat(lines, [l]);
          assert Texts(more)[..n] == Texts(lines)[..n];
        } else {
          UntilItemIs(more[1..], n);
          assert more[n + 1..] == [] == lines[n..];
          TextsConcat(lines, [l]);
          OneText(l);
          assert Texts(more)[..n + 1] == Texts(lines) + [l.text] && Texts(lines)[..n] == Texts(lines);
          TrimBlankAfter(Texts(lines), l.text);
        }
      }
    }
  }

  lemma {:induction false} OneText(l: NumberedLine)
    ensures Texts([l]) == [l.text]
  {
  }

  /** Blank edges do not matter to the items. */
  lemma {:induction false} TrimmedTexts(ls: seq<string>)
    ensures ItemTexts(Plain(TrimLines(ls))) == ItemTexts(Plain(ls))
  {
    hide *;
    TrimmedStart(ls);
    TrimmedEnd(TrimStart(ls));
    TrimIs(ls);
  }

  lemma {:induction false} TrimIs(ls: seq<string>)
    ensures TrimLines(ls) == TrimEnd(TrimStart(ls))
  {
  }

  lemma {:induction false} TrimmedStart(ls: seq<string>)
    ensures ItemTexts(Plain(TrimStart(ls))) == ItemTexts(Plain(ls))
  {
    hide IsListItem, ItemTexts, IsBlank;
    if ls != [] && IsBlank(ls[0]) {
      TrimmedStart(ls[1..]);
      BlankIsNoItem(ls[0]);
      assert Plain(ls)[1..] == Plain(ls[1..]);
      FirstText(Plain(ls));
    }
  }

  lemma {:induction false} TrimmedEnd(ls: seq<string>)
    ensures ItemTexts(Plain(TrimEnd(ls))) == ItemTexts(Plain(ls))
  {
    hide IsListItem, ItemTexts, IsBlank;
    if ls != [] && IsBlank(ls[|ls| - 1]) {
      var init, l := ls[..|ls| - 1], Plain(ls)[|ls| - 1];
      TrimmedEnd(init);
      assert Plain(ls) == Plain(init) + [l];
      BlankAfter(Plain(init), l);
    }
  }

  // ---------------------------------------------------------------- adding lines to a subsection

  /** Existing lines, an empty line unless list meets list, and the new lines. */
  function Appended(target: seq<NumberedLine>, source: seq<string>): seq<NumberedLine> {
    var trimmed, existing := TrimLines(source), TrimLines(Texts(target));
    if trimmed == [] then target
    else if existing == [] then Plain(trimmed)
    else Plain(existing + Separator(existing[|existing| - 1], trimmed[0]) + trimmed)
  }

  function Separator(last: string, first: string): seq<string> {
    if IsListItem(last) && IsListItem(first) then [] else [""]
  }

  lemma {:induction false} ItemAlone(item: seq<string>)
    requires IsItem(item)
    ensures ItemTexts(Plain(item)) == [item] && StartsItem(Plain(item)) && TrimLines(item) == item
  {
    hide IsListItem, ItemTexts, IsBlank;
    var lines, n := Plain(item), |item|;
    assert lines[..n] == lines && lines[n..] == [];
    forall i | 0 < i < n ensures !IsListItem(lines[i].text) { assert lines[i].text == item[i]; }
    assert lines[0].text == item[0];
    UntilItemIs(lines[1..], n - 1);
    FirstText(lines);
    NoTexts();
    TrimAround(item);
    assert Texts(lines)[..n] == item;
  }

  /** Appending an item adds it at the end of the subsection's items and changes no other. */
  lemma {:induction false} AppendItem(target: seq<NumberedLine>, item: seq<string>)
    requires IsItem(item)
    ensures ItemTexts(Appended(target, item)) == ItemTexts(target) + [item]
  {
    hide IsListItem, ItemTexts, TrimLines, StartsItem;
    var existing := TrimLines(Texts(target));
    ItemAlone(item);
    TrimmedTexts(Texts(target));
    SameTexts(Plain(Texts(target)), target);
    if existing == [] {
      NoTexts();
    } else {
      var head := existing + Separator(existing[|existing| - 1], item[0]);
      PlainConcat(head, item);
      TextsOfConcat(Plain(head), Plain(item));
      SeparatorText(existing, item[0]);
    }
  }

  lemma {:induction false} TextsOfConcat(a: seq<NumberedLine>, b: seq<NumberedLine>)
    requires StartsItem(b)
    ensures ItemTexts(a + b) == ItemTexts(a) + ItemTexts(b)
  {
    hide Items, StartsItem;
    ItemsConcat(a, b);
    BareConcat(Items(a), Items(b));
  }

  lemma {:induction false} SeparatorText(existing: seq<string>, first: string)
    requires existing != []
    ensures ItemTexts(Plain(existing + Separator(existing[|existing| - 1], first))) == ItemTexts(Plain(existing))
  {
    hide IsListItem, ItemTexts;
    assert existing + [] == existing;
    assert Plain(existing + [""]) == Plain(existing) + [EMPTY];
    BlankAfter(Plain(existing), EMPTY);
  }

  // ---------------------------------------------------------------- lines that are not blank

  function NonBlank(ls: seq<string>): seq<string> {
    if ls == [] then [] else
    var rest := NonBlank(ls[1..]);
    if IsBlank(ls[0]) then rest else [ls[0]] + rest
  }

  lemma {:induction false} NonBlankConcat(a: seq<string>, b: seq<string>)
    ensures NonBlank(a + b) == NonBlank(a) + NonBlank(b)
  {
    hide IsBlank;
    if a == [] {
      assert a + b == b;
    } else {
      assert (a + b)[1..] == a[1..] + b;
      NonBlankConcat(a[1..], b);
    }
  }

  lemma {:induction false} NonBlankTrim(ls: seq<string>)
    ensures NonBlank(TrimLines(ls)) == NonBlank(ls)
  {
    NonBlankStart(ls);
    NonBlankEnd(TrimStart(ls));
  }

  lemma {:induction false} NonBlankStart(ls: seq<string>)
    ensures NonBlank(TrimStart(ls)) == NonBlank(ls)
  {
    hide IsBlank;
    if ls != [] && IsBlank(ls[0]) { NonBlankStart(ls[1..]); }
  }

  lemma {:induction false} NonBlankEnd(ls: seq<string>)
    ensures NonBlank(TrimEnd(ls)) == NonBlank(ls)
  {
    hide IsBlank;
    if ls != [] && IsBlank(ls[|ls| - 1]) {
      var init, last := ls[..|ls| - 1], [ls[|ls| - 1]];
      NonBlankEnd(init);
      NonBlankConcat(init, last);
      assert ls == init + last && last[1..] == [];
    }
  }

  /** Appending loses no line and invents none but blank ones. */
  lemma {:induction false} AppendKeepsLines(target: seq<NumberedLine>, source: seq<string>)
    ensures NonBlank(Texts(Appended(target, source))) == NonBlank(Texts(target)) + NonBlank(source)
  {
    hide IsListItem, TrimLines;
    var trimmed, existing := TrimLines(source), TrimLines(Texts(target));
    NonBlankTrim(source);
    NonBlankTrim(Texts(target));
    if trimmed != [] && existing != [] {
      var sep := Separator(existing[|existing| - 1], trimmed[0]);
      NonBlankConcat(existing + sep, trimmed);
      NonBlankConcat(existing, sep);
      assert [""][1..] == [];
      assert NonBlank(sep) == [];
    }
  }

  // ---------------------------------------------------------------- adding an item once

  function TextKey(text: seq<string>): string {
    JoinLines(TrimLines(text))
  }

  predicate HasItem(lines: seq<NumberedLine>, wanted: seq<string>) {
    TextKey(wanted) == "" || exists it <- Items(lines) :: TextKey(it.lines) == TextKey(wanted)
  }

  method SubsectionHasItem(lines: seq<NumberedLine>, wanted: seq<string>) returns (has: bool)
    ensures has == HasItem(lines, wanted)
  {
    var key := TextKey(wanted);
    if key == "" { return true; }
    var items := ParseItems(lines);
    for i := 0 to |items|
      invariant forall j | 0 <= j < i :: TextKey(items[j].lines) != key
    {
      if TextKey(items[i].lines) == key { return true; }
    }
    return false;
  }

  lemma {:induction false} ItemsAreItems(lines: seq<NumberedLine>)
    requires CleanLines(Texts(lines))
    ensures forall t <- ItemTexts(lines) :: IsItem(t) && CleanLines(t)
    decreases |lines|
  {
    hide ItemTexts, IsItem, CleanLine, IsListItem;
    if lines == [] {
      NoTexts();
    } else {
      FirstText(lines);
      var n := if IsListItem(lines[0].text) then 1 + UntilItem(lines[1..]) else 1;
      TextsParts(lines, n);
      assert forall l <- Texts(lines)[n..] :: l in Texts(lines);
      ItemsAreItems(lines[n..]);
      if IsListItem(lines[0].text) { BlockIsItem(lines, n); }
    }
  }

  lemma {:induction false} BlockIsItem(lines: seq<NumberedLine>, n: nat)
    requires lines != [] && IsListItem(lines[0].text) && n == 1 + UntilItem(lines[1..]) && CleanLines(Texts(lines))
    ensures IsItem(TrimLines(Texts(lines)[..n])) && CleanLines(TrimLines(Texts(lines)[..n]))
  {
    hide IsListItem, CleanLine, IsBlank;
    var block := Texts(lines)[..n];
    assert block[0] == lines[0].text;
    forall i | 0 < i < n ensures !IsListItem(block[i]) { assert block[i] == lines[1..][i - 1].text; }
    if IsBlank(block[0]) { BlankIsNoItem(block[0]); }
    TrimIsTidy(block);
    TrimEndStarts(block);
    hide TrimLines, TrimEnd, TidyLines;
    var text := TrimLines(block);
    assert text == block[..|text|];
    assert forall i | 0 <= i < |text| :: text[i] == block[i];
    assert forall l <- block :: l in Texts(lines);
  }

  lemma {:induction false} TrimEndStarts(ls: seq<string>)
    requires ls != [] && !IsBlank(ls[0])
    ensures TrimLines(ls) == TrimEnd(ls) != [] && TrimEnd(ls) <= ls
  {
    hide IsBlank;
    if IsBlank(ls[|ls| - 1]) {
      var init := ls[..|ls| - 1];
      TrimEndStarts(init);
      assert TrimEnd(init) == init[..|TrimEnd(init)|] == ls[..|TrimEnd(init)|];
    }
  }

  /** On lines without terminators the joined text tells items apart. */
  lemma {:induction false} KeyOfItem(a: seq<string>, b: seq<string>)
    requires IsItem(a) && CleanLines(a)
    ensures TextKey(a) != ""
    ensures IsItem(b) && CleanLines(b) ==> (TextKey(a) == TextKey(b) <==> a == b)
  {
    hide IsListItem, CleanLine, IsBlank, TrimLines;
    ItemAlone(a);
    SplitJoin(a);
    if IsItem(b) && CleanLines(b) {
      ItemAlone(b);
      SplitJoin(b);
    }
    if TextKey(a) == "" {
      assert Split("") == [""];
      assert a[0] == "";
      EmptyIsNoItem();
    }
  }

  lemma {:induction false} EmptyIsNoItem()
    ensures !IsListItem("")
  {
  }

  lemma {:induction false} HasItemIs(lines: seq<NumberedLine>, wanted: seq<string>)
    requires IsItem(wanted) && CleanLines(wanted) && CleanLines(Texts(lines))
    ensures HasItem(lines, wanted) <==> wanted in ItemTexts(lines)
  {
    hide IsItem, CleanLine, TextKey, Items;
    ItemsAreItems(lines);
    BareMembers(Items(lines));
    KeyOfItem(wanted, wanted);
    forall t <- ItemTexts(lines) ensures TextKey(t) == TextKey(wanted) <==> t == wanted {
      KeyOfItem(wanted, t);
    }
  }

  lemma {:induction false} BareMembers(items: seq<ParsedItem>)
    ensures forall t :: t in Bare(items) <==> exists it :: it in items && it.lines == t
  {
    if items != [] {
      BareMembers(items[1..]);
      assert forall it <- items :: it == items[0] || it in items[1..];
    }
  }

  /** Items added in turn, each only if it is not there yet. */
  function AddAll(lines: seq<NumberedLine>, texts: seq<seq<string>>): seq<NumberedLine> {
    if texts == [] then lines else
    var before, text := AddAll(lines, texts[..|texts| - 1]), texts[|texts| - 1];
    if HasItem(before, text) then before else Appended(before, text)
  }

  /** The same on the texts alone. */
  function AddMissing(have: seq<seq<string>>, texts: seq<seq<string>>): seq<seq<string>> {
    if texts == [] then have else
    var before, text := AddMissing(have, texts[..|texts| - 1]), texts[|texts| - 1];
    if text in before then before else before + [text]
  }

  predicate CleanItems(texts: seq<seq<string>>) {
    forall t <- texts :: IsItem(t) && CleanLines(t)
  }

  lemma {:induction false} AppendedClean(target: seq<NumberedLine>, source: seq<string>)
    requires CleanLines(Texts(target)) && CleanLines(source)
    ensures CleanLines(Texts(Appended(target, source)))
  {
    hide IsListItem, TrimLines;
    TrimIsTidy(source);
    TrimIsTidy(Texts(target));
  }

  /** Promoted items join those already there, in order, without duplicates. */
  lemma {:induction false} AddAllIs(lines: seq<NumberedLine>, texts: seq<seq<string>>)
    requires CleanLines(Texts(lines)) && CleanItems(texts)
    ensures CleanLines(Texts(AddAll(lines, texts)))
    ensures ItemTexts(AddAll(lines, texts)) == AddMissing(ItemTexts(lines), texts)
  {
    hide CleanLine, IsItem, HasItem, Appended, ItemTexts;
    if texts != [] {
      var init, text := texts[..|texts| - 1], texts[|texts| - 1];
      AddAllIs(lines, init);
      var before := AddAll(lines, init);
      HasItemIs(before, text);
      AppendItem(before, text);
      AppendedClean(before, text);
    }
  }

  /** Nothing added is missing, and what was there stays. */
  lemma {:induction false} AddMissingHas(have: seq<seq<string>>, texts: seq<seq<string>>)
    ensures have <= AddMissing(have, texts)
    ensures forall t :: t in AddMissing(have, texts) <==> t in have || t in texts
  {
    if texts != [] {
      AddMissingHas(have, texts[..|texts| - 1]);
    }
  }

  lemma {:induction false} AddMissingConcat(have: seq<seq<string>>, a: seq<seq<string>>, b: seq<seq<string>>)
    ensures AddMissing(have, a + b) == AddMissing(AddMissing(have, a), b)
  {
    if b == [] {
      assert a + b == a;
    } else {
      assert (a + b)[..|a + b| - 1] == a + b[..|b| - 1];
      AddMissingConcat(have, a, b[..|b| - 1]);
    }
  }
}
