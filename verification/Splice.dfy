/** Applying rewrite edits: right to left in one buffer, against splicing all of them at once. */
module Splice {
  import opened Bytes
  import opened Optional
  import opened StableSort

  const USIZE_MAX: nat := 0xFFFF_FFFF_FFFF_FFFF

  type Text = seq<Byte>

  datatype Edit = Edit(position: nat, deleted: nat, inserted: Text)

  /** `Panics`: replacing a range whose ends are not character boundaries. */
  datatype Outcome = Done(text: Text) | Overlapping | OutOfBounds | NotUtf8 | Panics

  function EndOf(e: Edit): nat {
    if e.position + e.deleted > USIZE_MAX then USIZE_MAX else e.position + e.deleted
  }

  function PositionKey(e: Edit): (int, int) {
    (e.position, 0)
  }

  ghost predicate Apart(es: seq<Edit>) {
    forall i | 0 <= i < |es| - 1 :: EndOf(es[i]) <= es[i + 1].position
  }

  /** The edit inserts text, at character boundaries. */
  predicate Sound(content: Text, e: Edit) {
    Utf8(e.inserted) && Boundary(content, e.position) && Boundary(content, EndOf(e))
  }

  ghost predicate AllSound(content: Text, es: seq<Edit>) {
    forall e <- es :: Sound(content, e)
  }

  /** The first edit from the right that is not sound, and how it fails. */
  function Trouble(content: Text, es: seq<Edit>): Option<Outcome> {
    if es == [] then None else
    var last := es[|es| - 1];
    if !Utf8(last.inserted) then Some(NotUtf8)
    else if !Sound(content, last) then Some(Panics)
    else Trouble(content, es[..|es| - 1])
  }

  lemma {:induction false} NoTrouble(content: Text, es: seq<Edit>)
    ensures Trouble(content, es) == None <==> AllSound(content, es)
  {
    hide Utf8, Boundary;
    if es != [] {
      NoTrouble(content, es[..|es| - 1]);
      assert es == es[..|es| - 1] + [es[|es| - 1]] && es[|es| - 1] in es;
    }
  }

  function SumInserted(es: seq<Edit>): nat {
    if es == [] then 0 else |es[0].inserted| + SumInserted(es[1..])
  }

  function SumDeleted(es: seq<Edit>): nat {
    if es == [] then 0 else es[0].deleted + SumDeleted(es[1..])
  }

  /** The sorted edits fit into `content` from offset `from` on. */
  ghost predicate Fits(content: Text, es: seq<Edit>, from: nat) {
    if es == [] then from <= |content| else
    from <= es[0].position <= EndOf(es[0]) <= |content| && Fits(content, es[1..], EndOf(es[0]))
  }

  /** All edits at once: the untouched gaps and the insertions, left to right. */
  function Spliced(content: Text, es: seq<Edit>, from: nat): Text
    requires Fits(content, es, from)
  {
    if es == [] then content[from..] else
    content[from..es[0].position] + es[0].inserted + Spliced(content, es[1..], EndOf(es[0]))
  }

  /** Before the first edit nothing changes. */
  lemma {:induction false} SplicedPrefix(content: Text, es: seq<Edit>, from: nat, p: nat)
    requires Fits(content, es, p) && from <= p
    ensures Fits(content, es, from)
    ensures Spliced(content, es, from) == content[from..p] + Spliced(content, es, p)
  {
    if es != [] {
      assert content[from..es[0].position] == content[from..p] + content[p..es[0].position];
    }
  }

  /** One step of the loop: splicing one more edit into the buffer. */
  lemma {:induction false} SpliceStep(content: Text, es: seq<Edit>)
    requires es != [] && Fits(content, es, 0)
    ensures Fits(content, es[1..], 0)
    ensures var out := Spliced(content, es[1..], 0);
      && EndOf(es[0]) <= |out|
      && out[..es[0].position] + es[0].inserted + out[EndOf(es[0])..] == Spliced(content, es, 0)
  {
    var p, e := es[0].position, EndOf(es[0]);
    SplicedPrefix(content, es[1..], 0, e);
    var out := Spliced(content, es[1..], 0);
    assert out == content[0..e] + Spliced(content, es[1..], e);
    assert out[..p] == content[0..p];
    assert out[e..] == Spliced(content, es[1..], e);
  }

  /** The length balances. */
  lemma {:induction false} SplicedLength(content: Text, es: seq<Edit>, from: nat)
    requires Fits(content, es, from) && |content| < USIZE_MAX
    ensures |Spliced(content, es, from)| + from + SumDeleted(es) == |content| + SumInserted(es)
  {
    if es != [] { SplicedLength(content, es[1..], EndOf(es[0])); }
  }

  /** Sound edits of a text make a text. */
  lemma {:induction false} SplicedUtf8(content: Text, es: seq<Edit>, from: nat)
    requires Utf8(content) && Fits(content, es, from) && AllSound(content, es) && Boundary(content, from)
    ensures Utf8(Spliced(content, es, from))
  {
    hide Utf8, Boundary;
    Utf8Cut(content, from);
    if es != [] {
      var p := es[0].position;
      assert Sound(content, es[0]);
      PieceUtf8(content, from, p);
      SplicedUtf8(content, es[1..], EndOf(es[0]));
      Utf8Concat(content[from..p], es[0].inserted);
      Utf8Concat(content[from..p] + es[0].inserted, Spliced(content, es[1..], EndOf(es[0])));
    }
  }

  lemma {:induction false} PieceUtf8(content: Text, from: nat, to: nat)
    requires Utf8(content) && from <= to <= |content| && Boundary(content, from) && Boundary(content, to)
    ensures Utf8(content[from..to])
  {
    hide Utf8;
    Utf8Cut(content, from);
    Utf8Cut(content[from..], to - from);
    assert content[from..][..to - from] == content[from..to];
  }

  /** Edits apart and the last one inside: all of them fit. */
  lemma {:induction false} ApartFits(content: Text, es: seq<Edit>, from: nat)
    requires Apart(es) && es != [] && from <= es[0].position && EndOf(es[|es| - 1]) <= |content| < USIZE_MAX
    ensures Fits(content, es, from)
  {
    if |es| > 1 {
      assert EndOf(es[0]) <= es[1].position;
      ApartFits(content, es[1..], EndOf(es[0]));
    } else {
      assert es[1..] == [];
    }
  }

  lemma {:induction false} SuffixFits(content: Text, es: seq<Edit>, i: nat)
    requires Fits(content, es, 0) && i <= |es|
    ensures Fits(content, es[i..], 0)
  {
    if i == 0 {
      assert es[0..] == es;
    } else {
      SplicedPrefix(content, es[1..], 0, EndOf(es[0]));
      SuffixFits(content, es[1..], i - 1);
      assert es[1..][i - 1..] == es[i..];
    }
  }

  /** What applying a list of edits comes to. */
  ghost predicate Expected(content: Text, edits: seq<Edit>, r: Outcome) {
    var es := Sort(edits, PositionKey);
    if !Apart(es) then r == Overlapping
    else if es != [] && EndOf(es[|es| - 1]) > |content| then r == OutOfBounds
    else if !AllSound(content, es) then Some(r) == Trouble(content, es)
    else Fits(content, es, 0) && r == Done(Spliced(content, es, 0))
  }

  method CheckOverlap(sorted: seq<Edit>) returns (ok: bool)
    ensures ok <==> Apart(sorted)
  {
    var prevEnd := 0;
    for i := 0 to |sorted|
      invariant prevEnd == if i == 0 then 0 else EndOf(sorted[i - 1])
      invariant Apart(sorted[..i])
    {
      assert i > 0 ==> sorted[..i + 1][i - 1] == sorted[i - 1];
      if sorted[i].position < prevEnd {
        assert EndOf(sorted[i - 1]) > sorted[i - 1 + 1].position;
        return false;
      }
      prevEnd := EndOf(sorted[i]);
    }
    assert sorted[..|sorted|] == sorted;
    ok := true;
  }

  /** The last edit ends inside the content. */
  predicate Inside(content: Text, es: seq<Edit>) {
    es == [] || EndOf(es[|es| - 1]) <= |content|
  }

  /** The buffer after the edits from the `i`-th on. */
  ghost predicate Buffer(output: Text, content: Text, es: seq<Edit>, i: nat)
    requires i <= |es|
  {
    && AllSound(content, es[i..]) && Trouble(content, es) == Trouble(content, es[..i])
    && if Inside(content, es)
       then Fits(content, es, 0) && Fits(content, es[i..], 0) && output == Spliced(content, es[i..], 0)
       else i == |es| && output == content
  }

  lemma {:induction false} BufferStart(content: Text, es: seq<Edit>)
    requires Apart(es) && |content| < USIZE_MAX
    ensures Buffer(content, content, es, |es|)
  {
    assert es[|es|..] == [] && es[..|es|] == es;
    if Inside(content, es) && es != [] { ApartFits(content, es, 0); }
  }

  /** Up to the next edit the buffer is the original, and it has the same character boundaries. */
  lemma {:induction false} SameBoundaries(output: Text, content: Text, es: seq<Edit>, x: nat)
    requires Utf8(content) && AllSound(content, es) && Fits(content, es, 0) && output == Spliced(content, es, 0)
    requires x <= if es == [] then |content| else es[0].position
    ensures x <= |output| && (Boundary(output, x) <==> Boundary(content, x))
  {
    if es != [] {
      var p := es[0].position;
      assert Sound(content, es[0]);
      SplicedPrefix(content, es, 0, p);
      SplicedUtf8(content, es, p);
      var rest := Spliced(content, es, p);
      assert output == content[0..p] + rest;
      if rest != [] { StartsChar(rest); }
    }
  }

  /** Only the last edit can fail the check against the buffer, and it fails exactly when it
      ends beyond the original content; the others fail as they would on the original. */
  lemma {:induction false} BufferStep(output: Text, content: Text, es: seq<Edit>, i: nat)
    requires Utf8(content) && i < |es| && Buffer(output, content, es, i + 1)
    ensures EndOf(es[i]) > |output| || es[i].position > EndOf(es[i]) <==> !Inside(content, es)
    ensures Inside(content, es) ==>
      && (Boundary(output, es[i].position) <==> Boundary(content, es[i].position))
      && (Boundary(output, EndOf(es[i])) <==> Boundary(content, EndOf(es[i])))
    ensures Inside(content, es) && Sound(content, es[i]) ==>
      Buffer(output[..es[i].position] + es[i].inserted + output[EndOf(es[i])..], content, es, i)
  {
    hide Sound, Utf8, Boundary;
    assert es[i..] == [es[i]] + es[i + 1..];
    assert es[..i + 1][..i] == es[..i];
    if Inside(content, es) {
      SuffixFits(content, es, i);
      assert es[i..][1..] == es[i + 1..];
      SameBoundaries(output, content, es[i + 1..], es[i].position);
      SameBoundaries(output, content, es[i + 1..], EndOf(es[i]));
      SpliceStep(content, es[i..]);
      if Sound(content, es[i]) { StillNoTrouble(content, es, i); }
    }
  }

  lemma {:induction false} StillNoTrouble(content: Text, es: seq<Edit>, i: nat)
    requires i < |es| && Sound(content, es[i])
    ensures Trouble(content, es[..i + 1]) == Trouble(content, es[..i])
  {
    hide Utf8, Boundary;
    assert es[..i + 1][..i] == es[..i];
  }

  method ApplyEdits(content: Text, edits: seq<Edit>) returns (r: Outcome)
    requires Utf8(content) && |content| < USIZE_MAX
    ensures Expected(content, edits, r)
    ensures r.Done? ==> Utf8(r.text)
    ensures r.Done? ==>
      |r.text| + SumDeleted(Sort(edits, PositionKey)) == |content| + SumInserted(Sort(edits, PositionKey))
  {
    hide Fits, Spliced, Sort, SumDeleted, SumInserted, Apart, Buffer, Utf8, Boundary, AllSound, Trouble;
    var sorted := Sort(edits, PositionKey);
    var ok := CheckOverlap(sorted);
    if !ok { return Overlapping; }
    var output := content;
    var i := |sorted|;
    BufferStart(content, sorted);
    while i > 0
      invariant 0 <= i <= |sorted| && Buffer(output, content, sorted, i)
    {
      i := i - 1;
      var edit := sorted[i];
      var start, end := edit.position, EndOf(edit);
      BufferStep(output, content, sorted, i);
      BufferFails(output, content, sorted, i);
      if end > |output| || start > end { return OutOfBounds; }
      if !Utf8(edit.inserted) { return NotUtf8; }
      if !Boundary(output, start) || !Boundary(output, end) { return Panics; }
      output := output[..start] + edit.inserted + output[end..];
    }
    BufferEnd(output, content, sorted);
    r := Done(output);
  }

  /** An edit that is not sound is the first from the right. */
  lemma {:induction false} BufferFails(output: Text, content: Text, es: seq<Edit>, i: nat)
    requires i < |es| && Buffer(output, content, es, i + 1)
    ensures !Sound(content, es[i]) ==> !AllSound(content, es)
    ensures !Sound(content, es[i]) ==> Trouble(content, es) == Some(if Utf8(es[i].inserted) then Panics else NotUtf8)
  {
    hide Utf8, Boundary;
    assert es[i] in es;
  }

  lemma {:induction false} BufferEnd(output: Text, content: Text, es: seq<Edit>)
    requires Utf8(content) && Buffer(output, content, es, 0) && |content| < USIZE_MAX
    ensures Inside(content, es) && AllSound(content, es) && Fits(content, es, 0) && output == Spliced(content, es, 0)
    ensures Utf8(output)
    ensures |output| + SumDeleted(es) == |content| + SumInserted(es)
  {
    assert es[0..] == es;
    SplicedLength(content, es, 0);
    SplicedUtf8(content, es, 0);
  }

  // ---------------------------------------------------------------- the order of the input

  /** Insertions at one position stay in input order. */
  lemma {:induction false} EqualPositionsKeepOrder(edits: seq<Edit>, p: nat)
    ensures WithKey(Sort(edits, PositionKey), PositionKey, (p, 0)) == WithKey(edits, PositionKey, (p, 0))
  {
    SortStable(edits, PositionKey, (p, 0));
  }

  ghost predicate DistinctPositions(edits: seq<Edit>) {
    forall i, j | 0 <= i < j < |edits| :: edits[i].position != edits[j].position
  }

  lemma {:induction false} OnlyOne(edits: seq<Edit>, k: (int, int), e: Edit)
    requires DistinctPositions(edits) && e in edits && PositionKey(e) == k
    ensures WithKey(edits, PositionKey, k) == [e]
  {
    if edits[0] == e {
      forall x <- edits[1..] ensures PositionKey(x) != k {
        var j :| 0 <= j < |edits[1..]| && edits[1..][j] == x;
        assert edits[j + 1] == x;
      }
      NoneWithKey(edits[1..], PositionKey, k);
    } else {
      var j :| 0 <= j < |edits| && edits[j] == e;
      assert edits[1..][j - 1] == e;
      OnlyOne(edits[1..], k, e);
    }
  }

  /** With distinct positions the input order does not matter. */
  lemma {:induction false} DistinctPositionsAnyOrder(a: seq<Edit>, b: seq<Edit>)
    requires DistinctPositions(a) && DistinctPositions(b) && forall e :: e in a <==> e in b
    ensures Sort(a, PositionKey) == Sort(b, PositionKey)
  {
    var x, y := Sort(a, PositionKey), Sort(b, PositionKey);
    SortSorts(a, PositionKey);
    SortSorts(b, PositionKey);
    forall k ensures WithKey(x, PositionKey, k) == WithKey(y, PositionKey, k) {
      SortStable(a, PositionKey, k);
      SortStable(b, PositionKey, k);
      if e :| e in a && PositionKey(e) == k {
        OnlyOne(a, k, e);
        OnlyOne(b, k, e);
      } else {
        NoneWithKey(a, PositionKey, k);
        NoneWithKey(b, PositionKey, k);
      }
    }
    StableUnique(x, y, PositionKey);
  }

  /** With equal positions it does: an insertion before a deletion at the same place is accepted,
      after it the pair is refused as overlapping. */
  lemma {:induction false} InsertionMustComeFirst(content: Text, insert: Edit, delete: Edit)
    requires insert.position == delete.position && insert.deleted == 0 && delete.deleted > 0
    requires delete.position + delete.deleted <= |content| < USIZE_MAX
    requires Sound(content, insert) && Sound(content, delete)
    ensures Expected(content, [insert, delete],
      Done(content[..insert.position] + insert.inserted + delete.inserted + content[EndOf(delete)..]))
    ensures Expected(content, [delete, insert], Overlapping)
  {
    SortPair(insert, delete);
    SortPair(delete, insert);
    var es := [insert, delete];
    assert es[1..] == [delete] && [delete][1..] == [];
    assert Fits(content, [delete], insert.position);
    assert Spliced(content, [delete], insert.position)
      == content[insert.position..insert.position] + delete.inserted + content[EndOf(delete)..];
    assert !Apart([delete, insert]) by { assert EndOf([delete, insert][0]) > [delete, insert][0 + 1].position; }
  }

  lemma {:induction false} SortPair(a: Edit, b: Edit)
    requires a.position == b.position
    ensures Sort([a, b], PositionKey) == [a, b]
  {
    assert [a, b][1..] == [b] && [b][1..] == [];
    assert Sort([], PositionKey) == [];
    assert Sort([b], PositionKey) == [b];
  }
}
