/** Generated names: `base`, then `base_2`, `base_3`, ... until one is not taken. */
module FreshNames {

  function Digit(d: nat): char
    requires d < 10
  {
    "0123456789"[d]
  }

  function Decimal(n: nat): string {
    if n < 10 then [Digit(n)] else Decimal(n / 10) + [Digit(n % 10)]
  }

  lemma {:induction false} DecimalInjective(m: nat, n: nat)
    requires Decimal(m) == Decimal(n)
    ensures m == n
  {
    var a, b := Decimal(m), Decimal(n);
    assert a[|a| - 1] == Digit(m % 10) && b[|b| - 1] == Digit(n % 10);
    assert m % 10 == n % 10;
    DecimalNonempty(m / 10);
    DecimalNonempty(n / 10);
    if m >= 10 && n >= 10 {
      assert a[..|a| - 1] == Decimal(m / 10) && b[..|b| - 1] == Decimal(n / 10);
      DecimalInjective(m / 10, n / 10);
    }
  }

  lemma {:induction false} DecimalNonempty(n: nat)
    ensures |Decimal(n)| > 0
  {
  }

  function Candidate(base: string, i: nat): string {
    if i < 2 then base else base + "_" + Decimal(i)
  }

  lemma {:induction false} CandidateInjective(base: string, i: nat, j: nat)
    requires 1 <= i && 1 <= j && Candidate(base, i) == Candidate(base, j)
    ensures i == j
  {
    var a, b := Candidate(base, i), Candidate(base, j);
    if i >= 2 && j >= 2 {
      assert a[|base| + 1..] == Decimal(i) && b[|base| + 1..] == Decimal(j);
      DecimalInjective(i, j);
    }
  }

  /** The taken names still ahead of the search: what makes it stop. */
  ghost function Ahead(base: string, taken: set<string>, i: nat): set<string> {
    set x | x in taken && exists j: nat :: i <= j && x == Candidate(base, j)
  }

  lemma {:induction false} AheadShrinks(base: string, taken: set<string>, i: nat)
    requires 1 <= i && Candidate(base, i) in taken
    ensures Ahead(base, taken, i + 1) < Ahead(base, taken, i)
  {
    assert Candidate(base, i) in Ahead(base, taken, i);
    if Candidate(base, i) in Ahead(base, taken, i + 1) {
      var j: nat :| i + 1 <= j && Candidate(base, i) == Candidate(base, j);
      CandidateInjective(base, i, j);
    }
  }

  ghost predicate AllTaken(base: string, taken: set<string>, from: nat, to: nat) {
    forall j: nat :: from <= j < to ==> Candidate(base, j) in taken
  }

  /** The first candidate from number `i` on that is not taken. */
  function FreshFrom(base: string, taken: set<string>, i: nat): (r: string)
    requires 1 <= i
    ensures r !in taken
    ensures exists k: nat :: i <= k && r == Candidate(base, k) && AllTaken(base, taken, i, k)
    decreases Ahead(base, taken, i)
  {
    if Candidate(base, i) !in taken then Candidate(base, i)
    else
      AheadShrinks(base, taken, i);
      FreshFrom(base, taken, i + 1)
  }

  function Fresh(base: string, taken: set<string>): (r: string)
    ensures r !in taken
  {
    FreshFrom(base, taken, 1)
  }

  method FreshName(base: string, taken: set<string>) returns (name: string)
    ensures name == Fresh(base, taken) && name !in taken
  {
    if base !in taken { return base; }
    var i := 2;
    while true
      invariant 2 <= i && Fresh(base, taken) == FreshFrom(base, taken, i)
      decreases Ahead(base, taken, i)
    {
      name := base + "_" + Decimal(i);
      if name !in taken { return; }
      AheadShrinks(base, taken, i);
      i := i + 1;
    }
  }
}
