/** Reading a session file by lines from a byte offset. */
module SyncLines {

  import opened Bytes

  const NEWLINE: Byte := 10

  function LineLength(bs: seq<Byte>): (n: nat)
    requires bs != []
    ensures 1 <= n <= |bs|
    ensures n < |bs| ==> bs[n - 1] == NEWLINE
  {
    if bs[0] == NEWLINE || |bs| == 1 then 1 else 1 + LineLength(bs[1..])
  }

  /** Iterating a binary file: each line with its newline, a torn last line without one. */
  function SplitLines(bs: seq<Byte>): seq<seq<Byte>> {
    if bs == [] then [] else
    var n := LineLength(bs);
    [bs[..n]] + SplitLines(bs[n..])
  }

  predicate WholeLines(bs: seq<Byte>) {
    bs == [] || bs[|bs| - 1] == NEWLINE
  }

  function TotalBytes(lines: seq<seq<Byte>>): nat {
    if lines == [] then 0 else TotalBytes(lines[..|lines| - 1]) + |lines[|lines| - 1]|
  }

  lemma {:induction false} TotalCons(l: seq<Byte>, ls: seq<seq<Byte>>)
    ensures TotalBytes([l] + ls) == |l| + TotalBytes(ls)
  {
    var all := [l] + ls;
    if ls == [] {
      assert all[..0] == [] && TotalBytes(all[..0]) == 0;
    } else {
      assert all[..|all| - 1] == [l] + ls[..|ls| - 1] && all[|all| - 1] == ls[|ls| - 1];
      TotalCons(l, ls[..|ls| - 1]);
    }
  }

  function Flat<R>(parts: seq<seq<R>>): seq<R> {
    if parts == [] then [] else Flat(parts[..|parts| - 1]) + parts[|parts| - 1]
  }

  lemma {:induction false} FlatCons<R>(first: seq<R>, rest: seq<seq<R>>)
    ensures Flat([first] + rest) == first + Flat(rest)
  {
    var all := [first] + rest;
    if rest == [] {
      assert all[..0] == [] && Flat(all[..0]) == [];
    } else {
      assert all[..|all| - 1] == [first] + rest[..|rest| - 1] && all[|all| - 1] == rest[|rest| - 1];
      FlatCons(first, rest[..|rest| - 1]);
    }
  }

  lemma {:induction false} FirstNewline(bs: seq<Byte>)
    requires bs != []
    ensures forall j | 0 <= j < LineLength(bs) - 1 :: bs[j] != NEWLINE
  {
    if bs[0] != NEWLINE && |bs| > 1 {
      FirstNewline(bs[1..]);
      assert forall j | 1 <= j < |bs| :: bs[j] == bs[1..][j - 1];
    }
  }

  /** The lines put together are the bytes, and a newline only ever ends a line. */
  lemma {:induction false} LinesOfBytes(bs: seq<Byte>)
    ensures Flat(SplitLines(bs)) == bs
    ensures forall l <- SplitLines(bs) :: l != [] && forall j | 0 <= j < |l| - 1 :: l[j] != NEWLINE
    decreases |bs|
  {
    hide SplitLines, LineLength;
    SplitStep(bs);
    if bs == [] {
      NothingFlat();
    } else {
      var n := LineLength(bs);
      LinesOfBytes(bs[n..]);
      FirstNewline(bs);
      FlatCons(bs[..n], SplitLines(bs[n..]));
      hide Flat;
      assert bs == bs[..n] + bs[n..];
    }
  }

  lemma {:induction false} NothingFlat()
    ensures Flat<Byte>([]) == []
  {
  }

  /** Reading the lines moves the offset by exactly the bytes read. */
  lemma {:induction false} SplitTotal(bs: seq<Byte>)
    ensures TotalBytes(SplitLines(bs)) == |bs|
    decreases |bs|
  {
    if bs != [] {
      var n := LineLength(bs);
      SplitTotal(bs[n..]);
      TotalCons(bs[..n], SplitLines(bs[n..]));
    }
  }

  lemma {:induction false} LineLengthConcat(a: seq<Byte>, b: seq<Byte>)
    requires a != [] && (WholeLines(a) || LineLength(a) < |a|)
    ensures LineLength(a + b) == LineLength(a)
  {
    if a[0] != NEWLINE && |a| > 1 {
      assert (a + b)[1..] == a[1..] + b;
      LineLengthConcat(a[1..], b);
    }
  }

  lemma {:induction false} SplitConcat(a: seq<Byte>, b: seq<Byte>)
    requires WholeLines(a)
    ensures SplitLines(a + b) == SplitLines(a) + SplitLines(b)
    decreases |a|
  {
    hide SplitLines, LineLength;
    SplitStep(a);
    SplitStep(a + b);
    if a == [] {
      assert a + b == b;
    } else {
      var n := LineLength(a);
      LineLengthConcat(a, b);
      assert (a + b)[..n] == a[..n] && (a + b)[n..] == a[n..] + b;
      SplitConcat(a[n..], b);
    }
  }

  /** Every line but the last ends in a newline; the last one ends as the file does. */
  lemma {:induction false} LineEnds(bs: seq<Byte>)
    requires bs != []
    ensures var ls := SplitLines(bs);
      && ls != [] && (forall i | 0 <= i < |ls| :: ls[i] != [])
      && (forall i | 0 <= i < |ls| - 1 :: ls[i][|ls[i]| - 1] == NEWLINE)
      && ls[|ls| - 1][|ls[|ls| - 1]| - 1] == bs[|bs| - 1]
    decreases |bs|
  {
    hide SplitLines, LineLength;
    var n := LineLength(bs);
    SplitStep(bs);
    if n < |bs| {
      LineEnds(bs[n..]);
    } else {
      assert bs[..n] == bs && bs[n..] == [];
    }
  }

  lemma {:induction false} SplitStep(bs: seq<Byte>)
    ensures SplitLines([]) == []
    ensures bs != [] ==> SplitLines(bs) == [bs[..LineLength(bs)]] + SplitLines(bs[LineLength(bs)..])
  {
  }

  /** Exactly when an appended stretch can be read on its own: at a torn line it cannot. */
  lemma {:induction false} SplitExact(a: seq<Byte>, b: seq<Byte>)
    ensures SplitLines(a + b) == SplitLines(a) + SplitLines(b) <==> WholeLines(a) || b == []
  {
    if WholeLines(a) {
      SplitConcat(a, b);
    } else if b == [] {
      assert a + b == a;
    } else {
      LineEnds(a);
      LineEnds(b);
      LineEnds(a + b);
      var k := |SplitLines(a)| - 1;
      assert (SplitLines(a) + SplitLines(b))[k] == SplitLines(a)[k];
    }
  }
}
