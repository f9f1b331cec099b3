/** The files of a diff do not mix: what is promoted in a file depends on that file's part alone. */
module DiffLocality {
  import opened ChangelogText
  import opened DiffScan
  import opened DiffPairing

  // ---------------------------------------------------------------- the middle of a sequence

  lemma {:induction false} CountNone<K>(keys: seq<K>, k: K, n: nat)
    requires n <= |keys| && forall i | 0 <= i < n :: keys[i] != k
    ensures Count(keys, k, n) == 0
  {
    if n > 0 { CountNone(keys, k, n - 1); }
  }

  lemma {:induction false} CountMiddle<K>(a: seq<K>, m: seq<K>, b: seq<K>, k: K, i: nat)
    requires k !in a && i <= |m|
    ensures Count(a + m + b, k, |a| + i) == Count(m, k, i)
  {
    if i > 0 {
      CountMiddle(a, m, b, k, i - 1);
      assert (a + m + b)[|a| + i - 1] == m[i - 1];
    } else {
      forall j | 0 <= j < |a| ensures (a + m + b)[j] != k { assert (a + m + b)[j] == a[j]; }
      CountNone(a + m + b, k, |a|);
    }
  }

  lemma {:induction false} CountWhole<K>(a: seq<K>, m: seq<K>, b: seq<K>, k: K, n: nat)
    requires k !in a && k !in b && n <= |b|
    ensures Count(a + m + b, k, |a| + |m| + n) == Count(m, k, |m|)
  {
    if n > 0 {
      CountWhole(a, m, b, k, n - 1);
      assert (a + m + b)[|a| + |m| + n - 1] == b[n - 1];
    } else {
      CountMiddle(a, m, b, k, |m|);
    }
  }

  /** Marks count as in the middle part, if they agree there. */
  lemma {:induction false} MarkedMiddle<K>(
    a: seq<K>, m: seq<K>, b: seq<K>, marks: seq<bool>, mine: seq<bool>, k: K, i: nat)
    requires |marks| == |a| + |m| + |b| && |mine| == |m| && k !in a && i <= |m|
    requires marks[|a|..|a| + |m|] == mine
    ensures Marked(a + m + b, marks, k, |a| + i) == Marked(m, mine, k, i)
  {
    if i > 0 {
      MarkedMiddle(a, m, b, marks, mine, k, i - 1);
      assert (a + m + b)[|a| + i - 1] == m[i - 1] && marks[|a| + i - 1] == mine[i - 1];
    } else {
      MarkedNone(a, m + b, marks, k, |a|);
      assert a + (m + b) == a + m + b;
    }
  }

  lemma {:induction false} MarkedNone<K>(a: seq<K>, b: seq<K>, marks: seq<bool>, k: K, n: nat)
    requires k !in a && n <= |a| && |marks| == |a| + |b|
    ensures Marked(a + b, marks, k, n) == 0
  {
    if n > 0 { MarkedNone(a, b, marks, k, n - 1); }
  }

  lemma {:induction false} MarkedWhole<K>(
    a: seq<K>, m: seq<K>, b: seq<K>, marks: seq<bool>, mine: seq<bool>, k: K, n: nat)
    requires |marks| == |a| + |m| + |b| && |mine| == |m| && k !in a && k !in b && n <= |b|
    requires marks[|a|..|a| + |m|] == mine
    ensures Marked(a + m + b, marks, k, |a| + |m| + n) == Marked(m, mine, k, |m|)
  {
    if n > 0 {
      MarkedWhole(a, m, b, marks, mine, k, n - 1);
      assert (a + m + b)[|a| + |m| + n - 1] == b[n - 1];
    } else {
      MarkedMiddle(a, m, b, marks, mine, k, |m|);
    }
  }

  // ---------------------------------------------------------------- which items pair

  function Positions<K(==)>(keys: seq<K>, k: K, n: nat): set<int>
    requires n <= |keys|
  {
    set j | 0 <= j < n && keys[j] == k
  }

  lemma {:induction false} CountIs<K>(keys: seq<K>, k: K, n: nat)
    requires n <= |keys|
    ensures Count(keys, k, n) == |Positions(keys, k, n)|
  {
    if n > 0 {
      CountIs(keys, k, n - 1);
      assert Positions(keys, k, n) == Positions(keys, k, n - 1) + if keys[n - 1] == k then {n - 1} else {};
    } else {
      assert Positions(keys, k, n) == {};
    }
  }

  /** Items are the same if they are in one file and their texts are, spaces around them aside. */
  predicate Same(path: string, text: string, path': string, text': string) {
    path == path' && TrimText(text) == TrimText(text')
  }

  /** An addition is paired exactly when more removals of the same item are in the diff than
      additions of it before this one. */
  lemma {:induction false} PairedExactly(s: Scanner, i: nat)
    requires i < |s.added|
    ensures var a := s.added[i];
      PairedAdditions(s)[i] <==>
        |set j | 0 <= j < i && Same(a.path, a.text, s.added[j].path, s.added[j].text)|
          < |set j | 0 <= j < |s.removed| && Same(a.path, a.text, s.removed[j].path, s.removed[j].text)|
  {
    var a, adds, rems := s.added[i], AddedKeys(s.added), RemovedKeys(s.removed);
    hide TrimText, Count;
    CountIs(adds, adds[i], i);
    CountIs(rems, adds[i], |rems|);
    SameKeys(s, a.path, a.text, i);
    assert adds[i] == (a.path, TrimText(a.text));
    assert PairedAdditions(s)[i] <==> Count(adds, adds[i], i) < Count(rems, adds[i], |rems|);
  }

  lemma {:induction false} SameKeys(s: Scanner, path: string, text: string, n: nat)
    requires n <= |s.added|
    ensures var k := (path, TrimText(text));
      && Positions(AddedKeys(s.added), k, n)
        == (set j | 0 <= j < n && Same(path, text, s.added[j].path, s.added[j].text))
      && Positions(RemovedKeys(s.removed), k, |s.removed|)
        == (set j | 0 <= j < |s.removed| && Same(path, text, s.removed[j].path, s.removed[j].text))
  {
    hide TrimText;
  }

  /** One addition and one removal pair exactly when they are the same item. */
  lemma {:induction false} OneWithOne(s: Scanner)
    requires |s.added| == |s.removed| == 1
    ensures PairedAdditions(s)[0] <==> Same(s.added[0].path, s.added[0].text, s.removed[0].path, s.removed[0].text)
    ensures PairedRemovals(s)[0] <==> Same(s.added[0].path, s.added[0].text, s.removed[0].path, s.removed[0].text)
  {
    var adds, rems := AddedKeys(s.added), RemovedKeys(s.removed);
    hide TrimText;
    assert Count(rems, adds[0], 1) == Count(rems, adds[0], 0) + if rems[0] == adds[0] then 1 else 0;
    assert Count(adds, rems[0], 1) == Count(adds, rems[0], 0) + if adds[0] == rems[0] then 1 else 0;
  }

  // ---------------------------------------------------------------- the parts of a scanned diff

  ghost predicate AllOf(path: string, added: seq<AddedItem>, removed: seq<RemovedItem>) {
    && (forall a <- added :: a.path == path && a.hunk.path == path)
    && forall r <- removed :: r.path == path && r.hunk.path == path
  }

  ghost predicate NoneOf(path: string, added: seq<AddedItem>, removed: seq<RemovedItem>) {
    && (forall a <- added :: a.path != path && a.hunk.path != path)
    && forall r <- removed :: r.path != path && r.hunk.path != path
  }

  lemma {:induction false} HunkItems(path: string, index: int, start: nat, ds: seq<DiffLine>)
    ensures AllOf(path, AddedIn(path, index, start, ds), RemovedIn(path, index, ds))
  {
    if ds != [] { HunkItems(path, index, start, ds[..|ds| - 1]); }
  }

  lemma {:induction false} FileItems(path: string, hs: seq<Hunk>)
    ensures AllOf(path, AddedByHunks(path, hs), RemovedByHunks(path, hs))
    ensures forall h <- ReleasesByHunks(path, hs) :: h.path == path
  {
    if hs != [] {
      FileItems(path, hs[..|hs| - 1]);
      HunkItems(path, |hs| - 1, hs[|hs| - 1].newStart, hs[|hs| - 1].lines);
    }
  }

  lemma {:induction false} OtherItems(path: string, fs: seq<FileDiff>)
    requires forall f <- fs :: f.path != path
    ensures NoneOf(path, AllAdded(fs), AllRemoved(fs)) && forall h <- AllReleases(fs) :: h.path != path
  {
    if fs != [] {
      OtherItems(path, fs[..|fs| - 1]);
      FileItems(fs[|fs| - 1].path, fs[|fs| - 1].hunks);
    }
  }

  lemma {:induction false} AllSnoc(fs: seq<FileDiff>, f: FileDiff)
    ensures AllAdded(fs + [f]) == AllAdded(fs) + AddedByHunks(f.path, f.hunks)
    ensures AllRemoved(fs + [f]) == AllRemoved(fs) + RemovedByHunks(f.path, f.hunks)
    ensures AllReleases(fs + [f]) == AllReleases(fs) + ReleasesByHunks(f.path, f.hunks)
  {
    assert (fs + [f])[..|fs|] == fs;
  }

  lemma {:induction false} Regroup<T>(a: seq<T>, b: seq<T>, c: seq<T>)
    ensures (a + b) + c == a + (b + c)
  {
  }

  lemma {:induction false} AllSplit(a: seq<FileDiff>, b: seq<FileDiff>)
    ensures AllAdded(a + b) == AllAdded(a) + AllAdded(b) && AllRemoved(a + b) == AllRemoved(a) + AllRemoved(b)
    ensures AllReleases(a + b) == AllReleases(a) + AllReleases(b)
  {
    if b == [] {
      assert a + b == a;
    } else {
      var init, f := b[..|b| - 1], b[|b| - 1];
      hide *;
      assert b == init + [f] && a + b == (a + init) + [f];
      AllSplit(a, init);
      AllSnoc(init, f);
      AllSnoc(a + init, f);
      Regroup(AllAdded(a), AllAdded(init), AddedByHunks(f.path, f.hunks));
      Regroup(AllRemoved(a), AllRemoved(init), RemovedByHunks(f.path, f.hunks));
    }
  }

  // ---------------------------------------------------------------- locality

  /** `s` is `t` with items and releases of other files around. */
  ghost predicate Around(s: Scanner, t: Scanner, path: string, a: seq<AddedItem>, b: seq<AddedItem>,
    c: seq<RemovedItem>, d: seq<RemovedItem>)
  {
    && s.added == a + t.added + b && s.removed == c + t.removed + d
    && NoneOf(path, a, c) && NoneOf(path, b, d) && AllOf(path, t.added, t.removed)
    && forall h: HunkRef | h.path == path :: h in s.releaseHunks <==> h in t.releaseHunks
  }

  lemma {:induction false} KeysAround(a: seq<AddedItem>, m: seq<AddedItem>, b: seq<AddedItem>,
                                      c: seq<RemovedItem>, n: seq<RemovedItem>, d: seq<RemovedItem>)
    ensures AddedKeys(a + m + b) == AddedKeys(a) + AddedKeys(m) + AddedKeys(b)
    ensures RemovedKeys(c + n + d) == RemovedKeys(c) + RemovedKeys(n) + RemovedKeys(d)
    ensures AddedHunks(a + m + b) == AddedHunks(a) + AddedHunks(m) + AddedHunks(b)
    ensures RemovedHunks(c + n + d) == RemovedHunks(c) + RemovedHunks(n) + RemovedHunks(d)
    ensures |AddedHunks(a)| == |a| && |AddedHunks(m)| == |m| && |AddedHunks(b)| == |b|
    ensures |RemovedHunks(c)| == |c| && |RemovedHunks(n)| == |n| && |RemovedHunks(d)| == |d|
  {
    hide TrimText;
  }

  lemma {:induction false} KeysElsewhere(path: string, text: string, added: seq<AddedItem>, removed: seq<RemovedItem>)
    requires NoneOf(path, added, removed)
    ensures (path, text) !in AddedKeys(added) && (path, text) !in RemovedKeys(removed)
  {
    hide TrimText;
    forall i | 0 <= i < |added| ensures AddedKeys(added)[i] != (path, text) { assert added[i] in added; }
    forall i | 0 <= i < |removed| ensures RemovedKeys(removed)[i] != (path, text) { assert removed[i] in removed; }
  }

  lemma {:induction false} HunksElsewhere(path: string, h: HunkRef, added: seq<AddedItem>, removed: seq<RemovedItem>)
    requires NoneOf(path, added, removed) && h.path == path
    ensures h !in AddedHunks(added) && h !in RemovedHunks(removed)
  {
    forall i | 0 <= i < |added| ensures AddedHunks(added)[i] != h { assert added[i] in added; }
    forall i | 0 <= i < |removed| ensures RemovedHunks(removed)[i] != h { assert removed[i] in removed; }
  }

  /** Pairing is that of the file alone. */
  lemma {:induction false} PairingLocal(s: Scanner, t: Scanner, path: string, a: seq<AddedItem>, b: seq<AddedItem>,
                                        c: seq<RemovedItem>, d: seq<RemovedItem>)
    requires Around(s, t, path, a, b, c, d)
    ensures PairedAdditions(s)[|a|..|a| + |t.added|] == PairedAdditions(t)
    ensures PairedRemovals(s)[|c|..|c| + |t.removed|] == PairedRemovals(t)
  {
    KeysAround(a, t.added, b, c, t.removed, d);
    var aKeys, mKeys, bKeys := AddedKeys(a), AddedKeys(t.added), AddedKeys(b);
    var cKeys, nKeys, dKeys := RemovedKeys(c), RemovedKeys(t.removed), RemovedKeys(d);
    hide TrimText, Count;
    forall i | 0 <= i < |t.added| ensures PairedAdditions(s)[|a| + i] == PairedAdditions(t)[i] {
      assert t.added[i] in t.added;
      KeysElsewhere(path, mKeys[i].1, a, c);
      KeysElsewhere(path, mKeys[i].1, b, d);
      CountMiddle(aKeys, mKeys, bKeys, mKeys[i], i);
      CountWhole(cKeys, nKeys, dKeys, mKeys[i], |d|);
    }
    forall i | 0 <= i < |t.removed| ensures PairedRemovals(s)[|c| + i] == PairedRemovals(t)[i] {
      assert t.removed[i] in t.removed;
      KeysElsewhere(path, nKeys[i].1, a, c);
      KeysElsewhere(path, nKeys[i].1, b, d);
      CountMiddle(cKeys, nKeys, dKeys, nKeys[i], i);
      CountWhole(aKeys, mKeys, bKeys, nKeys[i], |b|);
    }
  }

  lemma {:induction false} PromotionLocal(s: Scanner, t: Scanner, path: string, a: seq<AddedItem>, b: seq<AddedItem>,
                                          c: seq<RemovedItem>, d: seq<RemovedItem>)
    requires Around(s, t, path, a, b, c, d)
    ensures PromotedIn(s)[|a|..|a| + |t.added|] == PromotedIn(t)
  {
    hide PromotedIn, PairedAdditions, PairedRemovals;
    PairingLocal(s, t, path, a, b, c, d);
    forall i | 0 <= i < |t.added| ensures PromotedIn(s)[|a| + i] == PromotedIn(t)[i] {
      PromotionAt(s, t, path, a, b, c, d, i);
    }
  }

  function OpenIn(s: Scanner): (r: seq<bool>)
    ensures |r| == |s.added|
  {
    Open(AddedHunks(s.added), PairedAdditions(s), s.releaseHunks)
  }

  function LeftIn(s: Scanner, h: HunkRef): nat {
    Marked(RemovedHunks(s.removed), Not(PairedRemovals(s)), h, |s.removed|)
  }

  lemma {:induction false} PromotedIs(s: Scanner, i: nat)
    requires i < |s.added|
    ensures var h := s.added[i].hunk;
      PromotedIn(s)[i] ==
        (OpenIn(s)[i] && Marked(AddedHunks(s.added), OpenIn(s), h, i) >= LeftIn(s, h))
  {
    hide Marked, PairedRemovals, PairedAdditions;
  }

  lemma {:induction false} OpenLocal(s: Scanner, t: Scanner, path: string, a: seq<AddedItem>, b: seq<AddedItem>,
                                     c: seq<RemovedItem>, d: seq<RemovedItem>)
    requires Around(s, t, path, a, b, c, d)
    requires PairedAdditions(s)[|a|..|a| + |t.added|] == PairedAdditions(t)
    requires PairedRemovals(s)[|c|..|c| + |t.removed|] == PairedRemovals(t)
    ensures OpenIn(s)[|a|..|a| + |t.added|] == OpenIn(t)
    ensures Not(PairedRemovals(s))[|c|..|c| + |t.removed|] == Not(PairedRemovals(t))
  {
    hide PairedAdditions, PairedRemovals;
    forall i | 0 <= i < |t.added| ensures OpenIn(s)[|a| + i] == OpenIn(t)[i] {
      assert t.added[i] in t.added && s.added[|a| + i] == t.added[i];
    }
  }

  lemma {:induction false} PromotionAt(s: Scanner, t: Scanner, path: string, a: seq<AddedItem>, b: seq<AddedItem>,
                                       c: seq<RemovedItem>, d: seq<RemovedItem>, i: nat)
    requires Around(s, t, path, a, b, c, d) && i < |t.added|
    requires PairedAdditions(s)[|a|..|a| + |t.added|] == PairedAdditions(t)
    requires PairedRemovals(s)[|c|..|c| + |t.removed|] == PairedRemovals(t)
    ensures PromotedIn(s)[|a| + i] == PromotedIn(t)[i]
  {
    hide PairedAdditions, PairedRemovals, PromotedIn, OpenIn, LeftIn, NoneOf, Marked, AddedHunks, RemovedHunks;
    assert t.added[i] in t.added && s.added[|a| + i] == t.added[i];
    HunksElsewhere(path, t.added[i].hunk, a, c);
    HunksElsewhere(path, t.added[i].hunk, b, d);
    OpenLocal(s, t, path, a, b, c, d);
    MarksBefore(s, t, a, b, t.added[i].hunk, i);
    MarksLeft(s, t, c, d, t.added[i].hunk);
    PromotedIs(s, |a| + i);
    PromotedIs(t, i);
    hide *;
    assert OpenIn(s)[|a|..|a| + |t.added|][i] == OpenIn(t)[i];
  }

  lemma {:induction false} MarksBefore(
    s: Scanner, t: Scanner, a: seq<AddedItem>, b: seq<AddedItem>, h: HunkRef, i: nat)
    requires s.added == a + t.added + b && i < |t.added| && h !in AddedHunks(a)
    requires OpenIn(s)[|a|..|a| + |t.added|] == OpenIn(t)
    ensures Marked(AddedHunks(s.added), OpenIn(s), h, |a| + i) == Marked(AddedHunks(t.added), OpenIn(t), h, i)
  {
    KeysAround(a, t.added, b, [], [], []);
    hide *;
    MarkedMiddle(AddedHunks(a), AddedHunks(t.added), AddedHunks(b), OpenIn(s), OpenIn(t), h, i);
  }

  lemma {:induction false} MarksLeft(s: Scanner, t: Scanner, c: seq<RemovedItem>, d: seq<RemovedItem>, h: HunkRef)
    requires s.removed == c + t.removed + d && h !in RemovedHunks(c) && h !in RemovedHunks(d)
    requires Not(PairedRemovals(s))[|c|..|c| + |t.removed|] == Not(PairedRemovals(t))
    ensures LeftIn(s, h) == LeftIn(t, h)
  {
    KeysAround([], [], [], c, t.removed, d);
    hide PairedRemovals, Marked, Not, AddedHunks, RemovedHunks, AddedKeys, RemovedKeys;
    MarkedWhole(RemovedHunks(c), RemovedHunks(t.removed), RemovedHunks(d), Not(PairedRemovals(s)),
      Not(PairedRemovals(t)), h, |d|);
  }

  /** On a well-formed diff of different files, the lines collected for a file are those collected
      from its own part of the diff. */
  lemma {:induction false} CollectedPerFile(before: seq<FileDiff>, f: FileDiff, after: seq<FileDiff>, l: nat)
    requires PlainFile(f) && forall g <- before + after :: PlainFile(g) && g.path != f.path
    ensures var s, t := Scan(START, DiffLines(before + [f] + after)), Scan(START, DiffLines([f]));
      PromotedAt(s.added, PromotedIn(s), |s.added|, f.path, l)
      <==> PromotedAt(t.added, PromotedIn(t), |t.added|, f.path, l)
  {
    var s, t := Scan(START, DiffLines(before + [f] + after)), Scan(START, DiffLines([f]));
    AroundFile(before, f, after);
    PromotionLocal(s, t, f.path, AllAdded(before), AllAdded(after), AllRemoved(before), AllRemoved(after));
    SameLines(s, t, f.path, AllAdded(before), AllAdded(after), AllRemoved(before), AllRemoved(after), l);
  }

  lemma {:induction false} AroundFile(before: seq<FileDiff>, f: FileDiff, after: seq<FileDiff>)
    requires PlainFile(f) && forall g <- before + after :: PlainFile(g) && g.path != f.path
    ensures Around(Scan(START, DiffLines(before + [f] + after)), Scan(START, DiffLines([f])), f.path,
      AllAdded(before), AllAdded(after), AllRemoved(before), AllRemoved(after))
  {
    assert forall g <- before :: g in before + after;
    assert forall g <- after :: g in before + after;
    ScanTrueNumbers(before + [f] + after);
    ScanTrueNumbers([f]);
    AllSplit(before + [f], after);
    AllSplit(before, [f]);
    OtherItems(f.path, before);
    OtherItems(f.path, after);
    assert [f][..0] == [];
    FileItems(f.path, f.hunks);
    hide Scan, DiffLines, AddedByHunks, RemovedByHunks, ReleasesByHunks, PlainFile;
    assert [] + AddedByHunks(f.path, f.hunks) == AddedByHunks(f.path, f.hunks);
    assert [] + RemovedByHunks(f.path, f.hunks) == RemovedByHunks(f.path, f.hunks);
  }

  lemma {:induction false} SameLines(s: Scanner, t: Scanner, path: string, a: seq<AddedItem>, b: seq<AddedItem>,
                                     c: seq<RemovedItem>, d: seq<RemovedItem>, l: nat)
    requires Around(s, t, path, a, b, c, d)
    requires PromotedIn(s)[|a|..|a| + |t.added|] == PromotedIn(t)
    ensures PromotedAt(s.added, PromotedIn(s), |s.added|, path, l)
      <==> PromotedAt(t.added, PromotedIn(t), |t.added|, path, l)
  {
    hide PromotedIn;
    forall j | 0 <= j < |a| ensures s.added[j].path != path { assert s.added[j] == a[j] && a[j] in a; }
    var n := |a| + |t.added|;
    forall j | n <= j < |s.added| ensures s.added[j].path != path { assert s.added[j] == b[j - n] && b[j - n] in b; }
    if i :| 0 <= i < |s.added| && PromotedIn(s)[i] && s.added[i].path == path && s.added[i].lineNumber == l {
      assert t.added[i - |a|] == s.added[i] && i == |a| + (i - |a|);
    }
    if i :| 0 <= i < |t.added| && PromotedIn(t)[i] && t.added[i].path == path && t.added[i].lineNumber == l {
      assert s.added[|a| + i] == t.added[i];
    }
  }
}
