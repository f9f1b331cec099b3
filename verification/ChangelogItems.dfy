/** The list items of a changelog subsection: reading them, taking some out, and adding one. */
module ChangelogItems {
  import opened TextLines
  import opened LineSpans
  import opened ChangelogText
  import opened ChangelogParse
  import opened ChangelogRender
  import opened ChangelogRoundTrip
  import opened DiffScan

  datatype ParsedItem = ParsedItem(startLine: nat, endLine: nat, lines: seq<string>)

  /** Length of the longest start without a list item. */
  function UntilItem(lines: seq<NumberedLine>): (n: nat)
    ensures n <= |lines| && (forall i | 0 <= i < n :: !IsListItem(lines[i].text))
    ensures n < |lines| ==> IsListItem(lines[n].text)
  {
    if lines == [] || IsListItem(lines[0].text) then 0 else 1 + UntilItem(lines[1..])
  }

  function ItemOf(block: seq<NumberedLine>): ParsedItem
    requires block != []
  {
    ParsedItem(block[0].lineNumber, block[|block| - 1].lineNumber, TrimLines(Texts(block)))
  }

  /** An item is a list line with all lines up to the next one. */
  function Items(lines: seq<NumberedLine>): seq<ParsedItem>
    decreases |lines|
  {
    if lines == [] then []
    else if !IsListItem(lines[0].text) then Items(lines[1..])
    else
      var n := 1 + UntilItem(lines[1..]);
      [ItemOf(lines[..n])] + Items(lines[n..])
  }

  lemma {:induction false} UntilItemIs(lines: seq<NumberedLine>, n: nat)
    requires n <= |lines| && (forall i | 0 <= i < n :: !IsListItem(lines[i].text))
    requires n < |lines| ==> IsListItem(lines[n].text)
    ensures UntilItem(lines) == n
  {
    var m := UntilItem(lines);
    assert !(m < n) && !(n < m);
  }

  lemma {:induction false} NextItem(lines: seq<NumberedLine>, start: nat, index: nat)
    requires start < index <= |lines| && IsListItem(lines[start].text)
    requires forall i | start < i < index :: !IsListItem(lines[i].text)
    requires index < |lines| ==> IsListItem(lines[index].text)
    ensures Items(lines[start..]) == [ItemOf(lines[start..index])] + Items(lines[index..])
  {
    var rest := lines[start..];
    UntilItemIs(rest[1..], index - start - 1);
    assert rest[..index - start] == lines[start..index] && rest[index - start..] == lines[index..];
    hide UntilItem, IsListItem, ItemOf;
  }

  lemma {:induction false} NoItem(lines: seq<NumberedLine>, index: nat)
    requires index < |lines| && !IsListItem(lines[index].text)
    ensures Items(lines[index..]) == Items(lines[index + 1..])
  {
    assert lines[index..][1..] == lines[index + 1..];
  }

  method ParseItems(lines: seq<NumberedLine>) returns (items: seq<ParsedItem>)
    ensures items == Items(lines)
  {
    hide IsListItem, Items, ItemOf, UntilItem;
    items := [];
    var index := 0;
    assert lines[0..] == lines;
    while index < |lines|
      invariant index <= |lines| && items + Items(lines[index..]) == Items(lines)
    {
      if !IsListItem(lines[index].text) {
        NoItem(lines, index);
        index := index + 1;
        continue;
      }
      var start := index;
      index := index + 1;
      while index < |lines| && !IsListItem(lines[index].text)
        invariant start < index <= |lines| && forall i | start < i < index :: !IsListItem(lines[i].text)
      {
        index := index + 1;
      }
      NextItem(lines, start, index);
      items := items + [ItemOf(lines[start..index])];
    }
    NothingItems();
    assert lines[index..] == [];
  }

  lemma {:induction false} NothingItems()
    ensures Items([]) == []
  {
  }

  // ---------------------------------------------------------------- taking items out

  /** Those of `items` that start on one of `starts`. */
  function Chosen(items: seq<ParsedItem>, starts: set<nat>): seq<ParsedItem> {
    if items == [] then [] else
    var rest := Chosen(items[1..], starts);
    if items[0].startLine in starts then [items[0]] + rest else rest
  }

  function Others(items: seq<ParsedItem>, starts: set<nat>): seq<ParsedItem> {
    if items == [] then [] else
    var rest := Others(items[1..], starts);
    if items[0].startLine in starts then rest else [items[0]] + rest
  }

  function RangeLines(items: seq<ParsedItem>): set<nat> {
    if items == [] then {} else Between(items[0].startLine, items[0].endLine) + RangeLines(items[1..])
  }

  method LineRangeSet(items: seq<ParsedItem>) returns (lines: set<nat>)
    ensures lines == RangeLines(items)
  {
    hide Between;
    lines := {};
    assert items[0..] == items;
    for i := 0 to |items|
      invariant lines + RangeLines(items[i..]) == RangeLines(items)
    {
      assert items[i..][0] == items[i] && items[i..][1..] == items[i + 1..];
      ghost var before := lines;
      var line := items[i].startLine;
      while line <= items[i].endLine
        invariant items[i].startLine <= line
        invariant forall l :: l in lines <==> l in before || (items[i].startLine <= l < line && l <= items[i].endLine)
      {
        lines := lines + {line};
        line := line + 1;
      }
      assert lines == before + Between(items[i].startLine, items[i].endLine);
    }
    assert items[|items|..] == [];
  }

  /** The lines whose number is not in `gone`. */
  function Filtered(lines: seq<NumberedLine>, gone: set<nat>): seq<NumberedLine> {
    if lines == [] then [] else
    var rest := Filtered(lines[1..], gone);
    if lines[0].lineNumber in gone then rest else [lines[0]] + rest
  }

  ghost predicate Ascending(lines: seq<NumberedLine>) {
    forall i, j | 0 <= i < j < |lines| :: lines[i].lineNumber < lines[j].lineNumber
  }

  /** The lines without the items that start on one of `starts`. */
  function Kept(lines: seq<NumberedLine>, starts: set<nat>): seq<NumberedLine>
    decreases |lines|
  {
    if lines == [] then []
    else if !IsListItem(lines[0].text) then [lines[0]] + Kept(lines[1..], starts)
    else
      var n := 1 + UntilItem(lines[1..]);
      var rest := Kept(lines[n..], starts);
      if lines[0].lineNumber in starts then rest else lines[..n] + rest
  }

  lemma {:induction false} FilteredConcat(a: seq<NumberedLine>, b: seq<NumberedLine>, gone: set<nat>)
    ensures Filtered(a + b, gone) == Filtered(a, gone) + Filtered(b, gone)
  {
    if a == [] {
      assert a + b == b;
    } else {
      assert (a + b)[1..] == a[1..] + b;
      FilteredConcat(a[1..], b, gone);
    }
  }

  lemma {:induction false} FilteredAll(lines: seq<NumberedLine>, gone: set<nat>, in_: bool)
    requires forall l <- lines :: l.lineNumber in gone <==> in_
    ensures Filtered(lines, gone) == if in_ then [] else lines
  {
    if lines != [] {
      assert forall l <- lines[1..] :: l in lines;
      FilteredAll(lines[1..], gone, in_);
    }
  }

  lemma {:induction false} FilteredSame(lines: seq<NumberedLine>, gone: set<nat>, other: set<nat>)
    requires forall l <- lines :: l.lineNumber in gone <==> l.lineNumber in other
    ensures Filtered(lines, gone) == Filtered(lines, other)
  {
    if lines != [] {
      assert forall l <- lines[1..] :: l in lines;
      FilteredSame(lines[1..], gone, other);
    }
  }

  lemma {:induction false} Nothing(starts: set<nat>)
    ensures Items([]) == [] && Kept([], starts) == [] && Chosen([], starts) == [] && Others([], starts) == []
    ensures RangeLines([]) == {} && Filtered([], starts) == []
  {
  }

  lemma {:induction false} ItemCons(x: ParsedItem, items: seq<ParsedItem>, starts: set<nat>)
    ensures Chosen([x] + items, starts)
      == if x.startLine in starts then [x] + Chosen(items, starts) else Chosen(items, starts)
    ensures Others([x] + items, starts)
      == if x.startLine in starts then Others(items, starts) else [x] + Others(items, starts)
    ensures RangeLines([x] + items) == Between(x.startLine, x.endLine) + RangeLines(items)
  {
    hide Between;
    assert ([x] + items)[1..] == items;
  }

  /** A line before the first item, then the rest. */
  lemma {:induction false} FirstOther(lines: seq<NumberedLine>, starts: set<nat>)
    requires lines != [] && !IsListItem(lines[0].text)
    ensures Items(lines) == Items(lines[1..]) && Kept(lines, starts) == [lines[0]] + Kept(lines[1..], starts)
  {
    hide IsListItem, TrimLines, UntilItem;
  }

  /** The first item, then the others. */
  lemma {:induction false} FirstItem(lines: seq<NumberedLine>, starts: set<nat>)
    requires lines != [] && IsListItem(lines[0].text)
    ensures var n := 1 + UntilItem(lines[1..]);
      && Items(lines) == [ItemOf(lines[..n])] + Items(lines[n..])
      && Kept(lines, starts)
        == (if lines[0].lineNumber in starts then Kept(lines[n..], starts) else lines[..n] + Kept(lines[n..], starts))
      && forall i | 0 < i < n :: !IsListItem(lines[i].text)
  {
    hide IsListItem, ItemOf;
    var n := 1 + UntilItem(lines[1..]);
    forall i | 0 < i < n ensures !IsListItem(lines[i].text) {
      assert lines[1..][i - 1] == lines[i];
    }
    hide UntilItem;
  }

  function Taken(lines: seq<NumberedLine>, starts: set<nat>): set<nat> {
    RangeLines(Chosen(Items(lines), starts))
  }

  lemma {:induction false} FirstTaken(lines: seq<NumberedLine>, starts: set<nat>)
    requires lines != [] && IsListItem(lines[0].text)
    ensures var n := 1 + UntilItem(lines[1..]);
      Taken(lines, starts) == Taken(lines[n..], starts)
        + if lines[0].lineNumber in starts then Between(lines[0].lineNumber, lines[n - 1].lineNumber) else {}
  {
    hide Items, Kept, Chosen, Others, RangeLines, Between, IsListItem, TrimLines, UntilItem;
    var n := 1 + UntilItem(lines[1..]);
    var item, rest := ItemOf(lines[..n]), Items(lines[n..]);
    FirstItem(lines, starts);
    ItemCons(item, rest, starts);
    ItemCons(item, Chosen(rest, starts), starts);
  }

  /** Ranges of items lie within the numbers of their lines. */
  lemma {:induction false} RangesInside(lines: seq<NumberedLine>, starts: set<nat>, low: nat)
    requires Ascending(lines) && forall l <- lines :: low < l.lineNumber
    ensures forall n <- Taken(lines, starts) :: low < n
    decreases |lines|
  {
    hide *;
    if lines == [] {
      NothingTaken(starts);
    } else if !IsListItem(lines[0].text) {
      assert forall l <- lines[1..] :: l in lines;
      OtherTaken(lines, starts);
      AscendingRest(lines, 1);
      RangesInside(lines[1..], starts, low);
    } else {
      var n := 1 + UntilItem(lines[1..]);
      assert forall l <- lines[n..] :: l in lines;
      FirstTaken(lines, starts);
      AscendingRest(lines, n);
      RangesInside(lines[n..], starts, low);
      assert lines[0] in lines;
    }
  }

  lemma {:induction false} NothingTaken(starts: set<nat>)
    ensures Taken([], starts) == {}
  {
    Nothing(starts);
  }

  lemma {:induction false} OtherTaken(lines: seq<NumberedLine>, starts: set<nat>)
    requires lines != [] && !IsListItem(lines[0].text)
    ensures Taken(lines, starts) == Taken(lines[1..], starts)
  {
    hide Items, Chosen, RangeLines, IsListItem;
    FirstOther(lines, starts);
  }

  lemma {:induction false} AscendingRest(lines: seq<NumberedLine>, n: nat)
    requires Ascending(lines) && 0 < n <= |lines|
    ensures Ascending(lines[n..])
    ensures forall l <- lines[n..] :: lines[n - 1].lineNumber < l.lineNumber
    ensures forall l <- lines[..n] :: lines[0].lineNumber <= l.lineNumber <= lines[n - 1].lineNumber
  {
  }

  /** Filtering out the line ranges of the chosen items removes exactly those items. */
  lemma {:induction false} RemovalExact(lines: seq<NumberedLine>, starts: set<nat>)
    requires Ascending(lines)
    ensures Filtered(lines, Taken(lines, starts)) == Kept(lines, starts)
    decreases |lines|
  {
    hide *;
    if lines == [] {
      Nothing(starts);
      Nothing(Taken(lines, starts));
    } else {
      var other := !IsListItem(lines[0].text);
      var n := if other then 1 else 1 + UntilItem(lines[1..]);
      var block, rest, first := lines[..n], lines[n..], !other && lines[0].lineNumber in starts;
      var gone, later := Taken(lines, starts), Taken(lines[n..], starts);
      if other {
        FirstOther(lines, starts);
        OtherTaken(lines, starts);
      } else {
        FirstItem(lines, starts);
        FirstTaken(lines, starts);
      }
      AscendingRest(lines, n);
      RangesInside(rest, starts, lines[n - 1].lineNumber);
      RemovalExact(rest, starts);
      assert lines == block + rest;
      FilteredConcat(block, rest, gone);
      FilteredAll(block, gone, first);
      FilteredSame(rest, gone, later);
    }
  }

  // ---------------------------------------------------------------- items without the rest

  /** Text that holds no item before its first line, or nothing at all. */
  predicate StartsItem(lines: seq<NumberedLine>) {
    lines == [] || IsListItem(lines[0].text)
  }

  lemma {:induction false} UntilConcat(a: seq<NumberedLine>, b: seq<NumberedLine>)
    requires StartsItem(b)
    ensures UntilItem(a + b) == UntilItem(a)
  {
    UntilItemIs(a + b, UntilItem(a));
  }

  /** Items of two texts, the second starting with an item, are the items of both. */
  lemma {:induction false} ItemsConcat(a: seq<NumberedLine>, b: seq<NumberedLine>)
    requires StartsItem(b)
    ensures Items(a + b) == Items(a) + Items(b)
    decreases |a|
  {
    hide *;
    if a == [] {
      assert a + b == b;
      NothingItems();
    } else {
      assert (a + b)[1..] == a[1..] + b;
      if !IsListItem(a[0].text) {
        FirstOther(a, {});
        FirstOther(a + b, {});
        ItemsConcat(a[1..], b);
      } else {
        var n := 1 + UntilItem(a[1..]);
        UntilConcat(a[1..], b);
        FirstItem(a, {});
        FirstItem(a + b, {});
        assert (a + b)[..n] == a[..n] && (a + b)[n..] == a[n..] + b;
        ItemsConcat(a[n..], b);
      }
    }
  }

  /** What is kept holds exactly the items that were not taken out. */
  lemma {:induction false} ItemsOfKept(lines: seq<NumberedLine>, starts: set<nat>)
    ensures Items(Kept(lines, starts)) == Others(Items(lines), starts)
    ensures StartsItem(lines) ==> StartsItem(Kept(lines, starts))
    decreases |lines|
  {
    hide Items, Kept, Others, Chosen, ItemOf, UntilItem, IsListItem;
    if lines == [] {
      Nothing(starts);
    } else if !IsListItem(lines[0].text) {
      FirstOther(lines, starts);
      ItemsOfKept(lines[1..], starts);
      var rest := Kept(lines[1..], starts);
      FirstOther([lines[0]] + rest, starts);
      assert ([lines[0]] + rest)[1..] == rest;
    } else {
      var n := 1 + UntilItem(lines[1..]);
      var block, rest := lines[..n], lines[n..];
      FirstItem(lines, starts);
      AfterItem(lines);
      ItemsOfKept(rest, starts);
      ItemsConcat(block, Kept(rest, starts));
      OneItem(lines, n);
      ItemCons(ItemOf(block), Items(rest), starts);
      NumberOf(block);
      assert block[0] == lines[0];
    }
  }

  lemma {:induction false} AfterItem(lines: seq<NumberedLine>)
    requires lines != []
    ensures StartsItem(lines[1 + UntilItem(lines[1..])..])
  {
  }

  lemma {:induction false} NumberOf(block: seq<NumberedLine>)
    requires block != []
    ensures ItemOf(block).startLine == block[0].lineNumber
  {
  }

  lemma {:induction false} OneItem(lines: seq<NumberedLine>, n: nat)
    requires 0 < n <= |lines| && IsListItem(lines[0].text) && forall i | 0 < i < n :: !IsListItem(lines[i].text)
    ensures Items(lines[..n]) == [ItemOf(lines[..n])]
  {
    var block := lines[..n];
    UntilItemIs(block[1..], n - 1);
    assert block[..n] == block && block[n..] == [];
    NothingItems();
    hide IsListItem, UntilItem, ItemOf;
  }

  /** Taking the same items out again finds none. */
  lemma {:induction false} NothingLeftToTake(items: seq<ParsedItem>, starts: set<nat>)
    ensures Chosen(Others(items, starts), starts) == []
  {
    if items != [] {
      NothingLeftToTake(items[1..], starts);
      ItemCons(items[0], Others(items[1..], starts), starts);
    }
  }
}
