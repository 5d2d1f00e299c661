/** Checking the pairs of a list, and running pairwise independent actions in any order. */
module Pairs {
  import opened Seqs

  // ----- one report over all pairs -----

  function Reported<T, C>(check: (T, T) -> Option<C>, a: T, b: T): seq<C> {
    match check(a, b)
    case None => []
    case Some(c) => [c]
  }

  /** What the check says about item i and the items after it, up to j. */
  function ReportsOf<T, C>(check: (T, T) -> Option<C>, s: seq<T>, i: nat, j: nat): seq<C>
    requires i < j <= |s|
  {
    if j == i + 1 then [] else ReportsOf(check, s, i, j - 1) + Reported(check, s[i], s[j - 1])
  }

  /** The report on the first i items: each pair once, in list order. */
  function Report<T, C>(check: (T, T) -> Option<C>, s: seq<T>, i: nat): seq<C>
    requires i <= |s|
  {
    if i == 0 then [] else Report(check, s, i - 1) + ReportsOf(check, s, i - 1, |s|)
  }

  /** `c` is what the check says about items i and k. */
  predicate Says<T, C(==)>(check: (T, T) -> Option<C>, s: seq<T>, i: nat, k: nat, c: C) {
    i < k < |s| && check(s[i], s[k]) == Some(c)
  }

  /** The check says `c` about item i and one of the items up to j. */
  ghost predicate SaidOf<T, C>(check: (T, T) -> Option<C>, s: seq<T>, i: nat, j: nat, c: C) {
    exists k: nat :: k < j && Says(check, s, i, k, c)
  }

  /** The check says `c` about one of the first i items and a later one. */
  ghost predicate Said<T, C>(check: (T, T) -> Option<C>, s: seq<T>, i: nat, c: C) {
    exists a: nat, b: nat :: a < i && Says(check, s, a, b, c)
  }

  lemma SaidOfStep<T, C>(check: (T, T) -> Option<C>, s: seq<T>, i: nat, j: nat, c: C)
    ensures SaidOf(check, s, i, j + 1, c) <==> SaidOf(check, s, i, j, c) || Says(check, s, i, j, c)
  {
  }

  lemma SaidStep<T, C>(check: (T, T) -> Option<C>, s: seq<T>, i: nat, c: C)
    ensures Said(check, s, i + 1, c) <==> Said(check, s, i, c) || SaidOf(check, s, i, |s|, c)
  {
    if Said(check, s, i + 1, c) {
      var a: nat, b: nat :| a < i + 1 && Says(check, s, a, b, c);
      assert a == i || Said(check, s, i, c);
    }
    if SaidOf(check, s, i, |s|, c) {
      var k: nat :| k < |s| && Says(check, s, i, k, c);
    }
  }

  lemma {:induction false} ReportsOfMembers<T, C>(check: (T, T) -> Option<C>, s: seq<T>, i: nat, j: nat, c: C)
    requires i < j <= |s|
    ensures c in ReportsOf(check, s, i, j) <==> SaidOf(check, s, i, j, c)
  {
    if j > i + 1 {
      ReportsOfMembers(check, s, i, j - 1, c);
      InConcat(c, ReportsOf(check, s, i, j - 1), Reported(check, s[i], s[j - 1]));
      SaidOfStep(check, s, i, j - 1, c);
      assert c in Reported(check, s[i], s[j - 1]) <==> Says(check, s, i, j - 1, c);
    }
  }

  /** Exactly what the check says about some pair is reported. */
  lemma {:induction false} ReportMembers<T, C>(check: (T, T) -> Option<C>, s: seq<T>, i: nat, c: C)
    requires i <= |s|
    ensures c in Report(check, s, i) <==> Said(check, s, i, c)
  {
    if i == 0 {
      assert Report(check, s, 0) == [];
    } else {
      var k := i - 1;
      ReportMembers(check, s, k, c);
      ReportMembersStep(check, s, k, c);
    }
  }

  lemma ReportMembersStep<T, C>(check: (T, T) -> Option<C>, s: seq<T>, i: nat, c: C)
    requires i < |s| && (c in Report(check, s, i) <==> Said(check, s, i, c))
    ensures c in Report(check, s, i + 1) <==> Said(check, s, i + 1, c)
  {
    assert c in Report(check, s, i + 1) <==> Said(check, s, i, c) || SaidOf(check, s, i, |s|, c) by {
      InReport(check, s, i, c);
      ReportsOfMembers(check, s, i, |s|, c);
    }
    SaidStep(check, s, i, c);
  }

  lemma InReport<T, C>(check: (T, T) -> Option<C>, s: seq<T>, i: nat, c: C)
    requires i < |s|
    ensures c in Report(check, s, i + 1) <==> c in Report(check, s, i) || c in ReportsOf(check, s, i, |s|)
  {
    InConcat(c, Report(check, s, i), ReportsOf(check, s, i, |s|));
  }

  lemma {:induction false} ReportStep<T, C>(check: (T, T) -> Option<C>, s: seq<T>, i: nat, j: nat, before: seq<C>)
    requires i < j < |s|
    ensures before + ReportsOf(check, s, i, j + 1)
         == if check(s[i], s[j]).None? then before + ReportsOf(check, s, i, j)
            else before + ReportsOf(check, s, i, j) + [check(s[i], s[j]).value]
  {
    NilLeft(ReportsOf(check, s, i, j));
    if check(s[i], s[j]).Some? {
      Associate(before, ReportsOf(check, s, i, j), [check(s[i], s[j]).value]);
    }
  }

  /** The inner loop: one item against the items after it. */
  method ReportRow<T, C>(check: (T, T) -> Option<C>, s: seq<T>, i: nat, before: seq<C>) returns (reports: seq<C>)
    requires i < |s|
    ensures reports == before + ReportsOf(check, s, i, |s|)
  {
    reports := before;
    NilLeft(before);
    for j := i + 1 to |s|
      invariant reports == before + ReportsOf(check, s, i, j)
    {
      reports := ReportPair(check, s, i, j, before, reports);
    }
  }

  /** The body of the inner loop. */
  method ReportPair<T, C>(check: (T, T) -> Option<C>, s: seq<T>, i: nat, j: nat, ghost before: seq<C>, reports0: seq<C>)
    returns (reports: seq<C>)
    requires i < j < |s| && reports0 == before + ReportsOf(check, s, i, j)
    ensures reports == before + ReportsOf(check, s, i, j + 1)
  {
    ReportStep(check, s, i, j, before);
    reports := reports0;
    var found := check(s[i], s[j]);
    if found.Some? {
      reports := reports + [found.value];
    }
  }

  method ReportPairs<T, C>(check: (T, T) -> Option<C>, s: seq<T>) returns (reports: seq<C>)
    ensures reports == Report(check, s, |s|)
  {
    reports := [];
    for i := 0 to |s|
      invariant reports == Report(check, s, i)
    {
      reports := ReportRow(check, s, i, reports);
    }
  }

  // ----- any order, same result -----

  function RunAll<T, S>(run: T -> (S -> S), order: seq<T>, st: S): S {
    if order == [] then st else RunAll(run, order[1..], run(order[0])(st))
  }

  ghost predicate Commute<T, S(!new)>(run: T -> (S -> S), a: T, b: T) {
    forall st :: run(a)(run(b)(st)) == run(b)(run(a)(st))
  }

  ghost predicate AllCommute<T, S(!new)>(run: T -> (S -> S), s: seq<T>) {
    forall i, j :: 0 <= i < j < |s| ==> Commute(run, s[i], s[j])
  }

  lemma {:induction false} MoveToFront<T, S(!new)>(run: T -> (S -> S), order: seq<T>, k: nat, st: S)
    requires k < |order| && AllCommute(run, order)
    ensures RunAll(run, order, st) == RunAll(run, order[..k] + order[k + 1..], run(order[k])(st))
    decreases k
  {
    if k == 0 {
      assert order[..0] + order[1..] == order[1..];
    } else {
      var a, x, rest := order[0], order[k], order[1..];
      assert rest[k - 1] == x;
      AllCommuteTail(run, order);
      MoveToFront(run, rest, k - 1, run(a)(st));
      SwapFirst(run, order, k, st);
      FrontOf(order, k);
    }
  }

  lemma {:induction false} SwapFirst<T, S(!new)>(run: T -> (S -> S), order: seq<T>, k: nat, st: S)
    requires 0 < k < |order| && AllCommute(run, order)
    ensures run(order[k])(run(order[0])(st)) == run(order[0])(run(order[k])(st))
  {
    assert Commute(run, order[0], order[k]);
  }

  lemma {:induction false} AllCommuteTail<T, S(!new)>(run: T -> (S -> S), order: seq<T>)
    requires order != [] && AllCommute(run, order)
    ensures AllCommute(run, order[1..])
  {
    forall i, j | 0 <= i < j < |order| - 1 ensures Commute(run, order[1..][i], order[1..][j]) {
      assert Commute(run, order[i + 1], order[j + 1]);
    }
  }

  lemma FrontOf<T>(order: seq<T>, k: nat)
    requires 0 < k < |order|
    ensures var left := order[..k] + order[k + 1..];
            left != [] && left[0] == order[0] && left[1..] == order[1..][..k - 1] + order[1..][k..]
  {
  }

  lemma WithoutOne<T>(p: seq<T>, q: seq<T>, k: nat)
    requires q != [] && k < |p| && p[k] == q[0] && multiset(p) == multiset(q)
    ensures multiset(p[..k] + p[k + 1..]) == multiset(q[1..])
  {
    assert p == p[..k] + [p[k]] + p[k + 1..];
    assert q == [q[0]] + q[1..];
    assert multiset(p[..k] + p[k + 1..]) == multiset(p) - multiset{p[k]};
  }

  lemma {:induction false} StillCommute<T, S(!new)>(run: T -> (S -> S), p: seq<T>, k: nat)
    requires k < |p| && AllCommute(run, p)
    ensures AllCommute(run, p[..k] + p[k + 1..])
  {
    var rest := p[..k] + p[k + 1..];
    forall i, j | 0 <= i < j < |rest| ensures Commute(run, rest[i], rest[j]) {
      assert rest[i] == p[if i < k then i else i + 1] && rest[j] == p[if j < k then j else j + 1];
    }
  }

  /** Actions that commute pairwise have the same effect in every order. */
  lemma {:induction false} AnyOrder<T, S(!new)>(run: T -> (S -> S), p: seq<T>, q: seq<T>, st: S)
    requires multiset(p) == multiset(q) && AllCommute(run, p)
    ensures RunAll(run, p, st) == RunAll(run, q, st)
    decreases |q|
  {
    assert |p| == |multiset(p)| == |multiset(q)| == |q|;
    if q != [] {
      assert q[0] in multiset(p);
      var k := IndexOf(p, q[0]);
      MoveToFront(run, p, k, st);
      WithoutOne(p, q, k);
      StillCommute(run, p, k);
      AnyOrder(run, p[..k] + p[k + 1..], q[1..], run(q[0])(st));
    }
  }
}
