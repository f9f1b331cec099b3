/** The repeat detector: the longest run of lines a block repeats right after itself or later. */
module LongestRepeat {
  import opened Optional

  /** Lines `i..i+k` recur at `j`, without overlap, and the run cannot be extended. */
  ghost predicate FullRun(block: seq<string>, i: nat, j: nat, k: nat) {
    && i + k <= j && j + k <= |block| && block[i..i + k] == block[j..j + k]
    && !(i + k < j && j + k < |block| && block[i + k] == block[j + k])
  }

  function CountMeaningful(lines: seq<string>, meaningful: string -> bool): nat {
    if lines == [] then 0 else
    CountMeaningful(lines[..|lines| - 1], meaningful) + if meaningful(lines[|lines| - 1]) then 1 else 0
  }

  predicate Enough(count: nat, k: nat) {
    count >= (k + 1) / 2 && count >= 2
  }

  /** A repeat worth reporting. */
  ghost predicate Repeat(block: seq<string>, minLen: nat, meaningful: string -> bool, i: nat, j: nat, k: nat) {
    FullRun(block, i, j, k) && k >= minLen && Enough(CountMeaningful(block[i..i + k], meaningful), k)
  }

  /** The positions from `i` up to `e` that hold a meaningful line. */
  function Positions(block: seq<string>, meaningful: string -> bool, i: nat, e: nat): set<nat>
    requires i <= e <= |block|
  {
    set p | i <= p < e && meaningful(block[p])
  }

  function Meaningful(block: seq<string>, meaningful: string -> bool, i: nat, e: nat): nat
    requires i <= e <= |block|
  {
    |Positions(block, meaningful, i, e)|
  }

  lemma {:induction false} OneMoreLine(block: seq<string>, meaningful: string -> bool, i: nat, e: nat)
    requires i < e <= |block|
    ensures Meaningful(block, meaningful, i, e)
      == Meaningful(block, meaningful, i, e - 1) + if meaningful(block[e - 1]) then 1 else 0
  {
    assert Positions(block, meaningful, i, e)
      == Positions(block, meaningful, i, e - 1) + if meaningful(block[e - 1]) then {e - 1} else {};
  }

  lemma {:induction false} MeaningfulAre(block: seq<string>, meaningful: string -> bool, i: nat, e: nat)
    requires i <= e <= |block|
    ensures CountMeaningful(block[i..e], meaningful) == Meaningful(block, meaningful, i, e)
  {
    if i == e {
      assert Positions(block, meaningful, i, e) == {};
    } else {
      MeaningfulAre(block, meaningful, i, e - 1);
      OneMoreLine(block, meaningful, i, e);
      hide Meaningful;
      assert block[i..e][..e - 1 - i] == block[i..e - 1] && block[i..e][e - 1 - i] == block[e - 1];
    }
  }

  predicate SameLines(block: seq<string>, i: nat, j: nat, k: nat)
    requires i <= j && j + k <= |block|
  {
    forall p | i <= p < i + k :: block[p] == block[p + (j - i)]
  }

  lemma {:induction false} SameLinesIs(block: seq<string>, i: nat, j: nat, k: nat)
    requires i <= j && j + k <= |block|
    ensures SameLines(block, i, j, k) <==> block[i..i + k] == block[j..j + k]
  {
    var a, b := block[i..i + k], block[j..j + k];
    if a == b {
      forall p | i <= p < i + k ensures block[p] == block[p + (j - i)] {
        assert a[p - i] == b[p - i];
      }
    }
    if SameLines(block, i, j, k) {
      forall d | 0 <= d < k ensures a[d] == b[d] { assert block[i + d] == block[i + d + (j - i)]; }
    }
  }

  /** A repeat, line by line: the lines agree, the run goes on to its copy, the end or a difference,
      and of its lines two and at least half are meaningful. */
  lemma {:induction false} RepeatIs(
    block: seq<string>, minLen: nat, meaningful: string -> bool, i: nat, j: nat, k: nat)
    ensures Repeat(block, minLen, meaningful, i, j, k) <==>
      && i + k <= j && j + k <= |block| && k >= minLen && SameLines(block, i, j, k)
      && (i + k == j || j + k == |block| || block[i + k] != block[j + k])
      && Meaningful(block, meaningful, i, i + k) >= 2 && 2 * Meaningful(block, meaningful, i, i + k) >= k
  {
    if i + k <= j && j + k <= |block| {
      MeaningfulAre(block, meaningful, i, i + k);
      SameLinesIs(block, i, j, k);
    }
    hide CountMeaningful, Meaningful, SameLines;
  }

  ghost predicate Before(a: nat, b: nat, i: nat, j: nat) {
    a < i || (a == i && b < j)
  }

  /** Shorter, or as long but not earlier. */
  ghost predicate NoBetter(a: nat, b: nat, k: nat, x: nat, y: nat, len: nat) {
    k < len || (k == len && !Before(a, b, x, y))
  }

  /** `best` is right for the pairs before `(i, j)`; `at` is where the reported run recurs. */
  ghost predicate BestSoFar(
    best: Option<(nat, nat)>, at: nat, block: seq<string>, minLen: nat, meaningful: string -> bool, i: nat, j: nat)
  {
    match best
    case None => forall a: nat, b: nat, k: nat :: Before(a, b, i, j) ==> !Repeat(block, minLen, meaningful, a, b, k)
    case Some((x, len)) =>
      && Before(x, at, i, j) && Repeat(block, minLen, meaningful, x, at, len)
      && (forall a: nat, b: nat, k: nat | Before(a, b, i, j) && Repeat(block, minLen, meaningful, a, b, k) ::
            NoBetter(a, b, k, x, at, len))
  }

  /** What the whole search promises: no repeat at all, or the longest, the first of its length. */
  ghost predicate Longest(
    best: Option<(nat, nat)>, at: nat, block: seq<string>, minLen: nat, meaningful: string -> bool)
  {
    match best
    case None => forall a: nat, b: nat, k: nat :: !Repeat(block, minLen, meaningful, a, b, k)
    case Some((x, len)) =>
      && Repeat(block, minLen, meaningful, x, at, len)
      && (forall a: nat, b: nat, k: nat | Repeat(block, minLen, meaningful, a, b, k) ::
            NoBetter(a, b, k, x, at, len))
  }

  /** A pair of positions has one full run. */
  lemma {:induction false} FullRunUnique(block: seq<string>, i: nat, j: nat, k: nat, m: nat)
    requires FullRun(block, i, j, k) && FullRun(block, i, j, m)
    ensures k == m
  {
    if k < m { SameAt(block, i, j, m, k); }
    if m < k { SameAt(block, i, j, k, m); }
  }

  lemma {:induction false} SameAt(block: seq<string>, i: nat, j: nat, k: nat, m: nat)
    requires i + k <= j && j + k <= |block| && block[i..i + k] == block[j..j + k] && m < k
    ensures block[i + m] == block[j + m]
  {
    assert block[i..i + k][m] == block[j..j + k][m];
  }

  /** Every repeat lies in the ranges the loops visit. */
  lemma {:induction false} RepeatRange(
    block: seq<string>, minLen: nat, meaningful: string -> bool, i: nat, j: nat, k: nat)
    requires Repeat(block, minLen, meaningful, i, j, k)
    ensures i + minLen <= j && j + minLen <= |block| && i + minLen <= |block|
  {
  }

  method FullRunLength(block: seq<string>, i: nat, j: nat) returns (k: nat)
    requires i <= j <= |block|
    ensures FullRun(block, i, j, k)
  {
    k := 0;
    while i + k < j && j + k < |block| && block[i + k] == block[j + k]
      invariant i + k <= j && j + k <= |block| && block[i..i + k] == block[j..j + k]
      decreases |block| - k
    {
      assert block[i..i + k + 1] == block[i..i + k] + [block[i + k]];
      assert block[j..j + k + 1] == block[j..j + k] + [block[j + k]];
      k := k + 1;
    }
  }

  /** One pair: the reported run changes only for a strictly longer repeat. */
  lemma {:induction false} NextPair(
    best: Option<(nat, nat)>, at: nat, block: seq<string>, minLen: nat, meaningful: string -> bool,
    i: nat, j: nat, k: nat)
    requires BestSoFar(best, at, block, minLen, meaningful, i, j) && i <= j && FullRun(block, i, j, k)
    ensures var take := Repeat(block, minLen, meaningful, i, j, k) && (best == None || k > best.value.1);
      BestSoFar(if take then Some((i, k)) else best, if take then j else at, block, minLen, meaningful, i, j + 1)
  {
    forall m | FullRun(block, i, j, m) ensures m == k { FullRunUnique(block, i, j, k, m); }
    hide FullRun, CountMeaningful;
  }

  lemma {:induction false} SkipPairs(
    best: Option<(nat, nat)>, at: nat, block: seq<string>, minLen: nat, meaningful: string -> bool,
    i: nat, j: nat, i': nat, j': nat)
    requires BestSoFar(best, at, block, minLen, meaningful, i, j)
    requires forall a: nat, b: nat :: Before(a, b, i, j) ==> Before(a, b, i', j')
    requires forall a: nat, b: nat | Before(a, b, i', j') && !Before(a, b, i, j) ::
      !(a + minLen <= b && b + minLen <= |block|)
    ensures BestSoFar(best, at, block, minLen, meaningful, i', j')
  {
    forall a: nat, b: nat, k: nat | Repeat(block, minLen, meaningful, a, b, k)
      ensures a + minLen <= b && b + minLen <= |block| {
      RepeatRange(block, minLen, meaningful, a, b, k);
    }
    hide Repeat;
  }

  method FindLongestRepeat(block: seq<string>, minLen: nat, meaningful: string -> bool)
    returns (best: Option<(nat, nat)>)
    ensures exists at: nat :: Longest(best, at, block, minLen, meaningful)
  {
    hide Repeat, FullRun, Longest, BestSoFar, Before;
    best := None;
    ghost var at: nat := 0;
    var n := |block|;
    if n < 2 * minLen {
      TooShort(block, minLen, meaningful);
      return;
    }
    NoPairs(block, minLen, meaningful);
    for i := 0 to n - minLen + 1
      invariant BestSoFar(best, at, block, minLen, meaningful, i, 0)
    {
      var start, stop := i + minLen, n - minLen + 1;
      ToRow(best, at, block, minLen, meaningful, i);
      var j := start;
      while j < stop
        invariant start <= j && (j <= stop || j == start)
        invariant BestSoFar(best, at, block, minLen, meaningful, i, j)
      {
        var k := FullRunLength(block, i, j);
        NextPair(best, at, block, minLen, meaningful, i, j, k);
        if k >= minLen {
          RunInBlock(block, i, j, k);
          var count := CountMeaningful(block[i..i + k], meaningful);
          IsRepeat(block, minLen, meaningful, i, j, k);
          if Enough(count, k) && (best == None || k > best.value.1) {
            best := Some((i, k));
            at := j;
          }
        } else {
          IsRepeat(block, minLen, meaningful, i, j, k);
        }
        j := j + 1;
      }
      EndRow(best, at, block, minLen, meaningful, i, j);
    }
    AllRows(best, at, block, minLen, meaningful);
  }

  lemma {:induction false} TooShort(block: seq<string>, minLen: nat, meaningful: string -> bool)
    requires |block| < 2 * minLen
    ensures Longest(None, 0, block, minLen, meaningful)
  {
    forall a: nat, b: nat, k: nat ensures !Repeat(block, minLen, meaningful, a, b, k) {
      if Repeat(block, minLen, meaningful, a, b, k) { RepeatRange(block, minLen, meaningful, a, b, k); }
    }
  }

  lemma {:induction false} NoPairs(block: seq<string>, minLen: nat, meaningful: string -> bool)
    ensures BestSoFar(None, 0, block, minLen, meaningful, 0, 0)
  {
  }

  lemma {:induction false} ToRow(
    best: Option<(nat, nat)>, at: nat, block: seq<string>, minLen: nat, meaningful: string -> bool, i: nat)
    requires BestSoFar(best, at, block, minLen, meaningful, i, 0)
    ensures BestSoFar(best, at, block, minLen, meaningful, i, i + minLen)
  {
    SkipPairs(best, at, block, minLen, meaningful, i, 0, i, i + minLen);
  }

  lemma {:induction false} EndRow(
    best: Option<(nat, nat)>, at: nat, block: seq<string>, minLen: nat, meaningful: string -> bool, i: nat, j: nat)
    requires BestSoFar(best, at, block, minLen, meaningful, i, j) && j + minLen > |block|
    ensures BestSoFar(best, at, block, minLen, meaningful, i + 1, 0)
  {
    SkipPairs(best, at, block, minLen, meaningful, i, j, i + 1, 0);
  }

  lemma {:induction false} AllRows(
    best: Option<(nat, nat)>, at: nat, block: seq<string>, minLen: nat, meaningful: string -> bool)
    requires |block| >= 2 * minLen && BestSoFar(best, at, block, minLen, meaningful, |block| - minLen + 1, 0)
    ensures Longest(best, at, block, minLen, meaningful)
  {
    forall a: nat, b: nat, k: nat | Repeat(block, minLen, meaningful, a, b, k)
      ensures Before(a, b, |block| - minLen + 1, 0)
    {
      RepeatRange(block, minLen, meaningful, a, b, k);
    }
    hide Repeat;
  }

  lemma {:induction false} RunInBlock(block: seq<string>, i: nat, j: nat, k: nat)
    requires FullRun(block, i, j, k)
    ensures i + k <= |block|
  {
  }

  lemma {:induction false} IsRepeat(block: seq<string>, minLen: nat, meaningful: string -> bool, i: nat, j: nat, k: nat)
    requires FullRun(block, i, j, k)
    ensures i + k <= |block|
    ensures Repeat(block, minLen, meaningful, i, j, k)
      <==> k >= minLen && Enough(CountMeaningful(block[i..i + k], meaningful), k)
  {
  }
}
