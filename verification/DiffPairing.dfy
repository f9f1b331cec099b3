/** Which added items were moved rather than new: pairing additions with removals, then letting
    the removals left over in a hunk excuse its first additions. */
module DiffPairing {
  import opened Numbers
  import opened Optional
  import opened ChangelogText
  import opened DiffScan

  // ---------------------------------------------------------------- counting

  /** How many of the first `n` positions have key `k`. */
  function Count<K(==)>(keys: seq<K>, k: K, n: nat): nat
    requires n <= |keys|
  {
    if n == 0 then 0 else Count(keys, k, n - 1) + if keys[n - 1] == k then 1 else 0
  }

  /** ... and are marked. */
  function Marked<K(==)>(keys: seq<K>, marks: seq<bool>, k: K, n: nat): nat
    requires n <= |keys| && n <= |marks|
  {
    if n == 0 then 0 else Marked(keys, marks, k, n - 1) + if keys[n - 1] == k && marks[n - 1] then 1 else 0
  }

  lemma {:induction false} MarkedAtMost<K>(keys: seq<K>, marks: seq<bool>, k: K, n: nat)
    requires n <= |keys| == |marks|
    ensures Marked(keys, marks, k, n) <= Count(keys, k, n)
    ensures Marked(keys, marks, k, n) == Count(keys, k, n) <==> forall j | 0 <= j < n && keys[j] == k :: marks[j]
  {
    if n > 0 { MarkedAtMost(keys, marks, k, n - 1); }
  }

  // ---------------------------------------------------------------- pairing

  type ItemKey = (string, string)

  function AddedKeys(added: seq<AddedItem>): seq<ItemKey> {
    seq(|added|, i requires 0 <= i < |added| => (added[i].path, TrimText(added[i].text)))
  }

  function RemovedKeys(removed: seq<RemovedItem>): seq<ItemKey> {
    seq(|removed|, i requires 0 <= i < |removed| => (removed[i].path, TrimText(removed[i].text)))
  }

  /** The positions of each key, in order. */
  ghost predicate Indexes(index: map<ItemKey, seq<nat>>, keys: seq<ItemKey>, n: nat)
    requires n <= |keys|
  {
    && (forall k <- index :: forall p <- index[k] :: p < n && keys[p] == k)
    && (forall k <- index :: forall i, j | 0 <= i < j < |index[k]| :: index[k][i] < index[k][j])
    && forall p | 0 <= p < n :: keys[p] in index && p in index[keys[p]]
  }

  method GroupByItem(keys: seq<ItemKey>) returns (index: map<ItemKey, seq<nat>>)
    ensures Indexes(index, keys, |keys|)
  {
    index := map[];
    for p := 0 to |keys|
      invariant Indexes(index, keys, p)
    {
      var k := keys[p];
      ghost var before := index;
      if k in index {
        forall i | 0 <= i < |index[k]| ensures index[k][i] < p { assert index[k][i] in index[k]; }
        index := index[k := index[k] + [p]];
      } else {
        index := index[k := [p]];
      }
      forall q | 0 <= q < p + 1 ensures keys[q] in index && q in index[keys[q]] {
        if q < p { assert q in before[keys[q]]; }
      }
    }
  }

  /** The first removal of an item that is still free. */
  method FindFree(index: map<ItemKey, seq<nat>>, keys: seq<ItemKey>, taken: seq<bool>, k: ItemKey)
    returns (p: Option<nat>)
    requires |taken| == |keys| && Indexes(index, keys, |keys|)
    ensures p == None ==> forall j | 0 <= j < |keys| && keys[j] == k :: taken[j]
    ensures p.Some? ==> p.value < |keys| && keys[p.value] == k && !taken[p.value]
    ensures p.Some? ==> forall j | 0 <= j < p.value && keys[j] == k :: taken[j]
  {
    if k !in index {
      forall j | 0 <= j < |keys| ensures keys[j] != k { assert keys[j] in index; }
      return None;
    }
    var list := index[k];
    for i := 0 to |list|
      invariant forall m | 0 <= m < i :: list[m] < |keys| && taken[list[m]]
    {
      assert list[i] in list;
      assert forall m | i < m < |list| :: list[i] < list[m];
      if !taken[list[i]] {
        forall j | 0 <= j < list[i] && keys[j] == k ensures taken[j] {
          assert j in index[keys[j]];
          var m :| 0 <= m < |list| && list[m] == j;
          assert m < i;
        }
        return Some(list[i]);
      }
    }
    forall j | 0 <= j < |keys| && keys[j] == k ensures taken[j] {
      assert j in index[keys[j]];
      var m :| 0 <= m < |list| && list[m] == j;
    }
    p := None;
  }

  /** Which positions of `keys` are paired when `n` positions of `others` are: in order, as long as
      there is one for each. */
  function Matched<K(==)>(keys: seq<K>, others: seq<K>, n: nat): (r: seq<bool>)
    requires n <= |others|
    ensures |r| == |keys|
  {
    seq(|keys|, i requires 0 <= i < |keys| => Count(keys, keys[i], i) < Count(others, keys[i], n))
  }

  lemma {:induction false} CountGrows<K>(keys: seq<K>, k: K, i: nat, j: nat)
    requires i <= j <= |keys|
    ensures Count(keys, k, i) <= Count(keys, k, j)
    ensures i < j && keys[i] == k ==> Count(keys, k, i) < Count(keys, k, j)
  {
    if i + 1 < j { CountGrows(keys, k, i, j - 1); }
  }

  /** The `c`-th occurrence of a key. */
  lemma {:induction false} Occurrence<K>(keys: seq<K>, k: K, c: nat, n: nat) returns (j: nat)
    requires n <= |keys| && c < Count(keys, k, n)
    ensures j < n && keys[j] == k && Count(keys, k, j) == c
  {
    if Count(keys, k, n - 1) > c { j := Occurrence(keys, k, c, n - 1); } else { j := n - 1; }
  }

  /** Of each key the smaller of the two numbers is paired. */
  lemma {:induction false} MatchedCount<K>(keys: seq<K>, others: seq<K>, k: K, n: nat)
    requires n <= |keys|
    ensures Marked(keys, Matched(keys, others, |others|), k, n) == Min(Count(keys, k, n), Count(others, k, |others|))
  {
    if n > 0 { MatchedCount(keys, others, k, n - 1); }
  }

  /** The state of the pairing after the first `n` additions. */
  ghost predicate PairedSoFar(addKeys: seq<ItemKey>, remKeys: seq<ItemKey>, adds: seq<bool>, rems: seq<bool>, n: nat) {
    && n <= |adds| == |addKeys| && rems == Matched(remKeys, addKeys, n)
    && (forall i | 0 <= i < n :: adds[i] == Matched(addKeys, remKeys, |remKeys|)[i])
    && forall i | n <= i < |adds| :: !adds[i]
  }

  /** An addition takes the first free removal of its item, which is the one after those taken. */
  lemma {:induction false} TakeFree(
    addKeys: seq<ItemKey>, remKeys: seq<ItemKey>, adds: seq<bool>, rems: seq<bool>, n: nat, p: nat)
    requires PairedSoFar(addKeys, remKeys, adds, rems, n) && n < |adds|
    requires p < |rems| && remKeys[p] == addKeys[n] && !rems[p]
    requires forall j | 0 <= j < p && remKeys[j] == addKeys[n] :: rems[j]
    ensures PairedSoFar(addKeys, remKeys, adds[n := true], rems[p := true], n + 1)
  {
    var k, c := addKeys[n], Count(addKeys, addKeys[n], n);
    if Count(remKeys, k, p) > c { var _ := Occurrence(remKeys, k, c, p); }
    CountGrows(remKeys, k, p, |remKeys|);
    OneMoreMatch(addKeys, remKeys, n, p);
    hide Count;
  }

  /** The next addition of an item goes with the next removal of it. */
  lemma {:induction false} OneMoreMatch(addKeys: seq<ItemKey>, remKeys: seq<ItemKey>, n: nat, p: nat)
    requires n < |addKeys| && p < |remKeys| && remKeys[p] == addKeys[n]
    requires Count(remKeys, addKeys[n], p) == Count(addKeys, addKeys[n], n)
    ensures Matched(remKeys, addKeys, n + 1) == Matched(remKeys, addKeys, n)[p := true]
  {
    var after, expected := Matched(remKeys, addKeys, n + 1), Matched(remKeys, addKeys, n)[p := true];
    forall j | 0 <= j < |remKeys| ensures after[j] == expected[j] {
      if remKeys[j] == addKeys[n] {
        if j < p { CountGrows(remKeys, addKeys[n], j, p); }
        if j > p { CountGrows(remKeys, addKeys[n], p, j); }
      }
    }
  }

  lemma {:induction false} NoneFree(
    addKeys: seq<ItemKey>, remKeys: seq<ItemKey>, adds: seq<bool>, rems: seq<bool>, n: nat)
    requires PairedSoFar(addKeys, remKeys, adds, rems, n) && n < |adds|
    requires forall j | 0 <= j < |remKeys| && remKeys[j] == addKeys[n] :: rems[j]
    ensures PairedSoFar(addKeys, remKeys, adds, rems, n + 1)
  {
    var k, c := addKeys[n], Count(addKeys, addKeys[n], n);
    if Count(remKeys, k, |remKeys|) > c { var _ := Occurrence(remKeys, k, c, |remKeys|); }
    assert Count(remKeys, k, |remKeys|) <= c;
    SameMatches(addKeys, remKeys, n);
  }

  /** An addition beyond the removals of its item changes nothing. */
  lemma {:induction false} SameMatches(addKeys: seq<ItemKey>, remKeys: seq<ItemKey>, n: nat)
    requires n < |addKeys| && Count(remKeys, addKeys[n], |remKeys|) <= Count(addKeys, addKeys[n], n)
    ensures Matched(remKeys, addKeys, n + 1) == Matched(remKeys, addKeys, n)
  {
    var after, before := Matched(remKeys, addKeys, n + 1), Matched(remKeys, addKeys, n);
    forall j | 0 <= j < |remKeys| ensures after[j] == before[j] {
      if remKeys[j] == addKeys[n] { CountGrows(remKeys, addKeys[n], j, |remKeys|); }
    }
  }

  lemma {:induction false} NothingPaired(addKeys: seq<ItemKey>, remKeys: seq<ItemKey>)
    ensures PairedSoFar(addKeys, remKeys, seq(|addKeys|, _ => false), seq(|remKeys|, _ => false), 0)
  {
  }

  lemma {:induction false} AllPaired(addKeys: seq<ItemKey>, remKeys: seq<ItemKey>, adds: seq<bool>, rems: seq<bool>)
    requires PairedSoFar(addKeys, remKeys, adds, rems, |addKeys|)
    ensures adds == Matched(addKeys, remKeys, |remKeys|) && rems == Matched(remKeys, addKeys, |addKeys|)
  {
  }

  /** Each addition takes the first free removal of its item: in the end the first additions and the
      first removals of each item are paired, as many as there are of both. */
  method PairItems(addKeys: seq<ItemKey>, remKeys: seq<ItemKey>) returns (adds: seq<bool>, rems: seq<bool>)
    ensures adds == Matched(addKeys, remKeys, |remKeys|) && rems == Matched(remKeys, addKeys, |addKeys|)
  {
    hide PairedSoFar, Indexes, Matched;
    var index := GroupByItem(remKeys);
    adds, rems := seq(|addKeys|, _ => false), seq(|remKeys|, _ => false);
    NothingPaired(addKeys, remKeys);
    for n := 0 to |addKeys|
      invariant |adds| == |addKeys| && |rems| == |remKeys| && PairedSoFar(addKeys, remKeys, adds, rems, n)
    {
      var p := FindFree(index, remKeys, rems, addKeys[n]);
      match p {
        case Some(q) =>
          TakeFree(addKeys, remKeys, adds, rems, n, q);
          adds, rems := adds[n := true], rems[q := true];
        case None =>
          NoneFree(addKeys, remKeys, adds, rems, n);
      }
    }
    AllPaired(addKeys, remKeys, adds, rems);
  }

  /** Both sides pair the same number of each item, and no other way of pairing equal items pairs
      more of any. */
  lemma {:induction false} PairingIsMaximum(
    addKeys: seq<ItemKey>, remKeys: seq<ItemKey>, otherAdds: seq<bool>, otherRems: seq<bool>, k: ItemKey)
    requires |otherAdds| == |addKeys| && |otherRems| == |remKeys|
    requires Marked(addKeys, otherAdds, k, |addKeys|) == Marked(remKeys, otherRems, k, |remKeys|)
    ensures var adds, rems := Matched(addKeys, remKeys, |remKeys|), Matched(remKeys, addKeys, |addKeys|);
      && Marked(addKeys, adds, k, |addKeys|) == Marked(remKeys, rems, k, |remKeys|)
        == Min(Count(addKeys, k, |addKeys|), Count(remKeys, k, |remKeys|))
      && Marked(addKeys, otherAdds, k, |addKeys|) <= Marked(addKeys, adds, k, |addKeys|)
  {
    MatchedCount(addKeys, remKeys, k, |addKeys|);
    MatchedCount(remKeys, addKeys, k, |remKeys|);
    MarkedAtMost(addKeys, otherAdds, k, |addKeys|);
    MarkedAtMost(remKeys, otherRems, k, |remKeys|);
  }

  // ---------------------------------------------------------------- promotion

  function AddedHunks(added: seq<AddedItem>): seq<HunkRef> {
    seq(|added|, i requires 0 <= i < |added| => added[i].hunk)
  }

  function RemovedHunks(removed: seq<RemovedItem>): seq<HunkRef> {
    seq(|removed|, i requires 0 <= i < |removed| => removed[i].hunk)
  }

  /** Additions that are unpaired and whose hunk adds no release heading. */
  function Open(hunks: seq<HunkRef>, adds: seq<bool>, releases: set<HunkRef>): (r: seq<bool>)
    requires |adds| == |hunks|
    ensures |r| == |hunks|
  {
    seq(|hunks|, i requires 0 <= i < |hunks| => !adds[i] && hunks[i] !in releases)
  }

  function Not(marks: seq<bool>): (r: seq<bool>)
    ensures |r| == |marks|
  {
    seq(|marks|, i requires 0 <= i < |marks| => !marks[i])
  }

  /** The i-th addition is promoted: open, with as many open additions of its hunk before it as the
      hunk has unpaired removals. */
  predicate Promoted(hunks: seq<HunkRef>, open: seq<bool>, excused: HunkRef -> nat, i: nat)
    requires |open| == |hunks| && i < |hunks|
  {
    open[i] && Marked(hunks, open, hunks[i], i) >= excused(hunks[i])
  }

  function Promotions(hunks: seq<HunkRef>, open: seq<bool>, excused: HunkRef -> nat): (r: seq<bool>)
    requires |open| == |hunks|
    ensures |r| == |hunks|
  {
    seq(|hunks|, i requires 0 <= i < |hunks| => Promoted(hunks, open, excused, i))
  }

  /** Exactly the surplus of unpaired additions over unpaired removals is promoted ... */
  lemma {:induction false} PromotedCount(
    hunks: seq<HunkRef>, open: seq<bool>, excused: HunkRef -> nat, h: HunkRef, n: nat)
    requires |open| == |hunks| && n <= |hunks|
    ensures var m := Marked(hunks, open, h, n);
      Marked(hunks, Promotions(hunks, open, excused), h, n) == if m >= excused(h) then m - excused(h) else 0
  {
    if n > 0 { PromotedCount(hunks, open, excused, h, n - 1); }
  }

  lemma {:induction false} MarkedGrows(hunks: seq<HunkRef>, open: seq<bool>, h: HunkRef, i: nat, j: nat)
    requires |open| == |hunks| && i <= j <= |hunks|
    ensures Marked(hunks, open, h, i) <= Marked(hunks, open, h, j)
  {
    if i < j { MarkedGrows(hunks, open, h, i, j - 1); }
  }

  /** ... and it is the last of them. */
  lemma {:induction false} PromotedAreLast(
    hunks: seq<HunkRef>, open: seq<bool>, excused: HunkRef -> nat, i: nat, j: nat)
    requires |open| == |hunks| && i < j < |hunks| && hunks[i] == hunks[j] && open[j]
    requires Promoted(hunks, open, excused, i)
    ensures Promoted(hunks, open, excused, j)
  {
    MarkedGrows(hunks, open, hunks[i], i, j);
  }

  /** A hunk that adds a release heading promotes nothing. */
  lemma {:induction false} ReleaseHunkPromotesNone(
    hunks: seq<HunkRef>, adds: seq<bool>, releases: set<HunkRef>, excused: HunkRef -> nat, h: HunkRef, n: nat)
    requires |adds| == |hunks| && n <= |hunks| && h in releases
    ensures Marked(hunks, Promotions(hunks, Open(hunks, adds, releases), excused), h, n) == 0
  {
    if n > 0 { ReleaseHunkPromotesNone(hunks, adds, releases, excused, h, n - 1); }
  }

  function Lookup(counts: map<HunkRef, nat>, h: HunkRef): nat {
    if h in counts then counts[h] else 0
  }

  method CountLeftOver(hunks: seq<HunkRef>, rems: seq<bool>) returns (counts: map<HunkRef, nat>)
    requires |rems| == |hunks|
    ensures forall h :: Lookup(counts, h) == Marked(hunks, Not(rems), h, |hunks|)
  {
    counts := map[];
    for j := 0 to |hunks|
      invariant forall h :: Lookup(counts, h) == Marked(hunks, Not(rems), h, j)
    {
      if rems[j] { continue; }
      counts := counts[hunks[j] := Lookup(counts, hunks[j]) + 1];
    }
  }

  /** The promoted lines of a path. */
  ghost predicate Collected(
    lines: map<string, set<nat>>, added: seq<AddedItem>, promoted: seq<bool>, n: nat)
    requires n <= |added| == |promoted|
  {
    && (forall p, l: nat :: p in lines && l in lines[p] <==> PromotedAt(added, promoted, n, p, l))
    && forall p <- lines :: lines[p] != {}
  }

  ghost predicate PromotedAt(added: seq<AddedItem>, promoted: seq<bool>, n: nat, p: string, l: nat)
    requires n <= |added| == |promoted|
  {
    exists i :: 0 <= i < n && promoted[i] && added[i].path == p && added[i].lineNumber == l
  }

  lemma {:induction false} CollectNext(lines: map<string, set<nat>>, added: seq<AddedItem>, promoted: seq<bool>, n: nat)
    requires n < |added| == |promoted| && Collected(lines, added, promoted, n)
    ensures var p, l := added[n].path, added[n].lineNumber;
      Collected(if promoted[n] then lines[p := (if p in lines then lines[p] else {}) + {l}] else lines,
        added, promoted, n + 1)
  {
    var next, path, line := n + 1, added[n].path, added[n].lineNumber;
    var after := if promoted[n] then lines[path := (if path in lines then lines[path] else {}) + {line}] else lines;
    forall p, l: nat ensures p in after && l in after[p] <==> PromotedAt(added, promoted, next, p, l) {
      assert p in lines && l in lines[p] <==> PromotedAt(added, promoted, n, p, l);
    }
  }

  method Promote(added: seq<AddedItem>, adds: seq<bool>, releases: set<HunkRef>, leftOver: map<HunkRef, nat>)
    returns (lines: map<string, set<nat>>)
    requires |adds| == |added|
    ensures var hunks := AddedHunks(added);
      Collected(lines, added, Promotions(hunks, Open(hunks, adds, releases), h => Lookup(leftOver, h)), |added|)
  {
    hide Collected;
    ghost var hunks := AddedHunks(added);
    ghost var open := Open(hunks, adds, releases);
    ghost var promoted := Promotions(hunks, open, h => Lookup(leftOver, h));
    lines := map[];
    var counts := leftOver;
    NothingCollected(added, promoted);
    for i := 0 to |added|
      invariant Collected(lines, added, promoted, i)
      invariant forall h :: CountedDown(counts, leftOver, hunks, open, h, i)
    {
      var key := added[i].hunk;
      CollectNext(lines, added, promoted, i);
      assert CountedDown(counts, leftOver, hunks, open, key, i);
      ghost var before := counts;
      if !adds[i] && key !in releases {
        var left := if key in counts then counts[key] else 0;
        if left > 0 {
          counts := counts[key := left - 1];
        } else {
          var p := added[i].path;
          lines := lines[p := (if p in lines then lines[p] else {}) + {added[i].lineNumber}];
        }
      }
      ghost var next := i + 1;
      forall h ensures CountedDown(counts, leftOver, hunks, open, h, next) {
        assert CountedDown(before, leftOver, hunks, open, h, i);
      }
    }
  }

  /** What is left of a hunk's unpaired removals after excusing open additions among the first `i`. */
  ghost predicate CountedDown(
    counts: map<HunkRef, nat>, leftOver: map<HunkRef, nat>, hunks: seq<HunkRef>, open: seq<bool>, h: HunkRef, i: nat)
    requires i <= |hunks| == |open|
  {
    var m := Marked(hunks, open, h, i);
    Lookup(counts, h) == if Lookup(leftOver, h) >= m then Lookup(leftOver, h) - m else 0
  }

  lemma {:induction false} NothingCollected(added: seq<AddedItem>, promoted: seq<bool>)
    requires |added| == |promoted|
    ensures Collected(map[], added, promoted, 0)
  {
  }

  /** The unpaired removals of each hunk. */
  function LeftOver(removed: seq<RemovedItem>, rems: seq<bool>): HunkRef -> nat
    requires |rems| == |removed|
  {
    h => Marked(RemovedHunks(removed), Not(rems), h, |removed|)
  }

  function PairedAdditions(s: Scanner): (r: seq<bool>)
    ensures |r| == |s.added|
  {
    Matched(AddedKeys(s.added), RemovedKeys(s.removed), |s.removed|)
  }

  function PairedRemovals(s: Scanner): (r: seq<bool>)
    ensures |r| == |s.removed|
  {
    Matched(RemovedKeys(s.removed), AddedKeys(s.added), |s.added|)
  }

  /** Which additions of a scanned diff are promoted. */
  function PromotedIn(s: Scanner): (r: seq<bool>)
    ensures |r| == |s.added|
  {
    var hunks := AddedHunks(s.added);
    Promotions(hunks, Open(hunks, PairedAdditions(s), s.releaseHunks), LeftOver(s.removed, PairedRemovals(s)))
  }

  lemma {:induction false} SamePromotions(hunks: seq<HunkRef>, open: seq<bool>, f: HunkRef -> nat, g: HunkRef -> nat)
    requires |open| == |hunks| && forall h :: f(h) == g(h)
    ensures Promotions(hunks, open, f) == Promotions(hunks, open, g)
  {
  }

  method CollectPromotableAddedItemLines(diff: seq<RawLine>)
    returns (lines: map<string, set<nat>>)
    ensures var s := Scan(START, diff); Collected(lines, s.added, PromotedIn(s), |s.added|)
  {
    hide Scan, Matched, Collected, Marked, TrimText, Promotions;
    var s := ScanDiff(diff);
    var addPaired, remPaired := PairItems(AddedKeys(s.added), RemovedKeys(s.removed));
    var leftOver := CountLeftOver(RemovedHunks(s.removed), remPaired);
    lines := Promote(s.added, addPaired, s.releaseHunks, leftOver);
    SamePromotions(AddedHunks(s.added), Open(AddedHunks(s.added), addPaired, s.releaseHunks),
      h => Lookup(leftOver, h), LeftOver(s.removed, remPaired));
  }

  /** What is collected is determined. */
  lemma {:induction false} CollectedOnce(
    a: map<string, set<nat>>, b: map<string, set<nat>>, added: seq<AddedItem>, promoted: seq<bool>, n: nat)
    requires n <= |added| == |promoted| && Collected(a, added, promoted, n) && Collected(b, added, promoted, n)
    ensures a == b
  {
    forall p ensures (p in a <==> p in b) && (p in a ==> a[p] == b[p]) {
      HalfCollected(a, b, added, promoted, n, p);
      HalfCollected(b, a, added, promoted, n, p);
    }
  }

  lemma {:induction false} HalfCollected(
    a: map<string, set<nat>>, b: map<string, set<nat>>, added: seq<AddedItem>, promoted: seq<bool>, n: nat, p: string)
    requires n <= |added| == |promoted| && Collected(a, added, promoted, n) && Collected(b, added, promoted, n)
    ensures p in a ==> p in b && a[p] <= b[p]
  {
    if p in a {
      var l :| l in a[p];
      assert PromotedAt(added, promoted, n, p, l);
      forall l <- a[p] ensures l in b[p] { assert PromotedAt(added, promoted, n, p, l); }
    }
  }

  /** For each hunk: nothing under an added release heading, else exactly the surplus. */
  lemma {:induction false} PromotionAccounting(s: Scanner, h: HunkRef)
    ensures var hunks := AddedHunks(s.added);
      var unpairedAdditions := Marked(hunks, Not(PairedAdditions(s)), h, |hunks|);
      var unpairedRemovals := Marked(RemovedHunks(s.removed), Not(PairedRemovals(s)), h, |s.removed|);
      Marked(hunks, PromotedIn(s), h, |hunks|) ==
        if h in s.releaseHunks || unpairedAdditions <= unpairedRemovals then 0
        else unpairedAdditions - unpairedRemovals
  {
    var hunks, adds, excused := AddedHunks(s.added), PairedAdditions(s), LeftOver(s.removed, PairedRemovals(s));
    if h in s.releaseHunks {
      ReleaseHunkPromotesNone(hunks, adds, s.releaseHunks, excused, h, |hunks|);
    } else {
      PromotedCount(hunks, Open(hunks, adds, s.releaseHunks), excused, h, |hunks|);
      OpenIsUnpaired(hunks, adds, s.releaseHunks, h, |hunks|);
    }
  }

  lemma {:induction false} OpenIsUnpaired(
    hunks: seq<HunkRef>, adds: seq<bool>, releases: set<HunkRef>, h: HunkRef, n: nat)
    requires |adds| == |hunks| && n <= |hunks| && h !in releases
    ensures Marked(hunks, Open(hunks, adds, releases), h, n) == Marked(hunks, Not(adds), h, n)
  {
    if n > 0 { OpenIsUnpaired(hunks, adds, releases, h, n - 1); }
  }
}
