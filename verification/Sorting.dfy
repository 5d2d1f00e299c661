/** Python's `sorted`: stable, and canonical when equal keys mean equal elements. */
module Sorting {
  import opened Seqs
  import Text

  ghost predicate TotalPreorder<T(!new)>(le: (T, T) -> bool) {
    && (forall x, y :: le(x, y) || le(y, x))
    && (forall x, y, z :: le(x, y) && le(y, z) ==> le(x, z))
  }

  ghost predicate SortedBy<T>(le: (T, T) -> bool, s: seq<T>) {
    forall i, j :: 0 <= i < j < |s| ==> le(s[i], s[j])
  }

  /** Insertion before the first element that is not smaller keeps equal elements in order. */
  function Insert<T>(le: (T, T) -> bool, x: T, s: seq<T>): seq<T> {
    if s == [] || le(x, s[0]) then [x] + s else [s[0]] + Insert(le, x, s[1..])
  }

  function Sort<T>(le: (T, T) -> bool, s: seq<T>): seq<T> {
    if s == [] then [] else Insert(le, s[0], Sort(le, s[1..]))
  }

  lemma {:induction false} InsertPermutes<T>(le: (T, T) -> bool, x: T, s: seq<T>)
    ensures multiset(Insert(le, x, s)) == multiset(s) + multiset{x}
  {
    if s != [] && !le(x, s[0]) {
      InsertPermutes(le, x, s[1..]);
      assert s == [s[0]] + s[1..];
    }
  }

  lemma {:induction false} SortPermutes<T>(le: (T, T) -> bool, s: seq<T>)
    ensures multiset(Sort(le, s)) == multiset(s)
    ensures |Sort(le, s)| == |s|
  {
    if s != [] {
      SortPermutes(le, s[1..]);
      InsertPermutes(le, s[0], Sort(le, s[1..]));
      assert s == [s[0]] + s[1..];
    }
    assert |multiset(Sort(le, s))| == |multiset(s)|;
  }

  lemma {:induction false} InsertSorts<T(!new)>(le: (T, T) -> bool, x: T, s: seq<T>)
    requires TotalPreorder(le) && SortedBy(le, s)
    ensures SortedBy(le, Insert(le, x, s))
  {
    if s != [] && !le(x, s[0]) {
      InsertSorts(le, x, s[1..]);
      InsertPermutes(le, x, s[1..]);
      var rest := Insert(le, x, s[1..]);
      forall j | 0 <= j < |rest| ensures le(s[0], rest[j]) {
        assert rest[j] in multiset(rest);
        if rest[j] != x {
          assert rest[j] in s[1..];
        }
      }
    } else if s != [] {
      forall j | 0 <= j < |s| ensures le(x, s[j]) {
        assert j > 0 ==> le(s[0], s[j]);
      }
    }
  }

  lemma {:induction false} SortSorts<T(!new)>(le: (T, T) -> bool, s: seq<T>)
    requires TotalPreorder(le)
    ensures SortedBy(le, Sort(le, s))
  {
    if s != [] {
      SortSorts(le, s[1..]);
      InsertSorts(le, s[0], Sort(le, s[1..]));
    }
  }

  /** No two different elements are equal under `le`. */
  ghost predicate Separates<T>(le: (T, T) -> bool, m: multiset<T>) {
    forall x, y :: x in m && y in m && le(x, y) && le(y, x) ==> x == y
  }

  lemma {:induction false} SortedIsCanonical<T(!new)>(le: (T, T) -> bool, s: seq<T>, t: seq<T>)
    requires TotalPreorder(le) && SortedBy(le, s) && SortedBy(le, t)
    requires multiset(s) == multiset(t) && Separates(le, multiset(s))
    ensures s == t
  {
    assert |s| == |multiset(s)| == |multiset(t)| == |t|;
    if s != [] {
      HeadsAgree(le, s, t);
      TailMultiset(s);
      TailMultiset(t);
      SeparatesTail(le, s);
      SortedIsCanonical(le, s[1..], t[1..]);
      SameHeadSameTail(s, t);
    }
  }

  lemma {:induction false} SameHeadSameTail<T>(s: seq<T>, t: seq<T>)
    requires s != [] && t != [] && s[0] == t[0] && s[1..] == t[1..]
    ensures s == t
  {
    assert s == [s[0]] + s[1..] && t == [t[0]] + t[1..];
  }

  lemma {:induction false} TailMultiset<T>(s: seq<T>)
    requires s != []
    ensures multiset(s[1..]) == multiset(s) - multiset{s[0]}
  {
    assert s == [s[0]] + s[1..];
  }

  lemma SeparatesTail<T(!new)>(le: (T, T) -> bool, s: seq<T>)
    requires s != [] && Separates(le, multiset(s)) && SortedBy(le, s)
    ensures Separates(le, multiset(s[1..])) && SortedBy(le, s[1..])
  {
    TailMultiset(s);
    assert forall x :: x in multiset(s[1..]) ==> x in multiset(s);
  }

  lemma {:induction false} HeadsAgree<T(!new)>(le: (T, T) -> bool, s: seq<T>, t: seq<T>)
    requires TotalPreorder(le) && SortedBy(le, s) && SortedBy(le, t) && s != [] && t != []
    requires multiset(s) == multiset(t) && Separates(le, multiset(s))
    ensures s[0] == t[0]
  {
    assert s[0] in multiset(t) && t[0] in multiset(s);
    var i := Position(s, t[0]);
    var j := Position(t, s[0]);
    assert le(s[0], s[i]) && le(t[0], t[j]);
  }

  lemma {:induction false} Position<T>(s: seq<T>, x: T) returns (i: nat)
    requires x in multiset(s)
    ensures i < |s| && s[i] == x
  {
    assert x in s;
    i :| 0 <= i < |s| && s[i] == x;
  }

  /** Sorting two permutations of the same elements gives the same list. */
  lemma {:induction false} SortIgnoresOrder<T(!new)>(le: (T, T) -> bool, s: seq<T>, t: seq<T>)
    requires TotalPreorder(le) && multiset(s) == multiset(t) && Separates(le, multiset(s))
    ensures Sort(le, s) == Sort(le, t)
  {
    SortPermutes(le, s);
    SortPermutes(le, t);
    SortSorts(le, s);
    SortSorts(le, t);
    SortedIsCanonical(le, Sort(le, s), Sort(le, t));
  }

  // ----- permutations seen through a function -----

  function Map<T, U>(f: T -> U, s: seq<T>): (r: seq<U>)
    ensures |r| == |s| && forall i :: 0 <= i < |s| ==> r[i] == f(s[i])
  {
    seq(|s|, i requires 0 <= i < |s| => f(s[i]))
  }

  lemma MapSnoc<T, U>(f: T -> U, front: seq<T>, last: T)
    ensures Map(f, front + [last]) == Map(f, front) + [f(last)]
  {
  }

  lemma {:induction false} RemoveAt<T>(s: seq<T>, i: nat)
    requires i < |s|
    ensures multiset(s) == multiset(s[..i] + s[i + 1..]) + multiset{s[i]}
  {
    assert s == s[..i] + [s[i]] + s[i + 1..];
  }

  /** Where the head of one permutation stands in another, and what is left of both without it. */
  lemma HeadOut<T>(s: seq<T>, t: seq<T>) returns (i: nat)
    requires s != [] && multiset(s) == multiset(t)
    ensures i < |t| && t[i] == s[0] && t == t[..i] + ([s[0]] + t[i + 1..])
    ensures multiset(s[1..]) == multiset(t[..i] + t[i + 1..])
  {
    assert s[0] in multiset(t);
    i := Position(t, s[0]);
    RemoveAt(t, i);
    assert s == [s[0]] + s[1..];
    assert multiset(s[1..]) == multiset(s) - multiset{s[0]};
  }

  function Without<T>(s: seq<T>, i: nat): (r: seq<T>)
    requires i < |s|
    ensures |r| == |s| - 1
  {
    s[..i] + s[i + 1..]
  }

  lemma {:induction false} MapWithout<T, U>(f: T -> U, s: seq<T>, i: nat)
    requires i < |s|
    ensures multiset(Map(f, s)) == multiset(Map(f, Without(s, i))) + multiset{f(s[i])}
  {
    RemoveAt(Map(f, s), i);
    assert Without(Map(f, s), i) == Map(f, Without(s, i));
  }

  lemma {:induction false} SameWithout<T>(s: seq<T>, i: nat, t: seq<T>, j: nat)
    requires i < |s| && j < |t| && s[i] == t[j] && multiset(s) == multiset(t)
    ensures multiset(Without(s, i)) == multiset(Without(t, j))
  {
    RemoveAt(s, i);
    RemoveAt(t, j);
    assert multiset(Without(s, i)) == multiset(s) - multiset{s[i]};
    assert multiset(Without(t, j)) == multiset(t) - multiset{t[j]};
  }

  /** A permutation stays one under any function. */
  lemma {:induction false} MapPermutes<T, U>(f: T -> U, s: seq<T>, t: seq<T>)
    requires multiset(s) == multiset(t)
    ensures multiset(Map(f, s)) == multiset(Map(f, t))
    decreases |s|
  {
    assert |s| == |multiset(s)| == |multiset(t)| == |t|;
    if s != [] {
      assert s[0] in multiset(t);
      var j := Position(t, s[0]);
      SameWithout(s, 0, t, j);
      MapPermutes(f, Without(s, 0), Without(t, j));
      MapWithout(f, s, 0);
      MapWithout(f, t, j);
    }
  }

  // ----- sets of strings in order -----

  lemma StringOrder()
    ensures TotalPreorder(Text.StringLe)
    ensures forall a, b :: Text.StringLe(a, b) && Text.StringLe(b, a) ==> a == b
  {
    forall a, b ensures Text.StringLe(a, b) || Text.StringLe(b, a) {
      Text.StringLeTotal(a, b);
    }
    forall a, b, c | Text.StringLe(a, b) && Text.StringLe(b, c) ensures Text.StringLe(a, c) {
      Text.StringLeTransitive(a, b, c);
    }
    forall a, b | Text.StringLe(a, b) && Text.StringLe(b, a) ensures a == b {
      Text.StringLeAntisymmetric(a, b);
    }
  }

  lemma Chain<T(!new)>(le: (T, T) -> bool, x: T, y: T, z: T)
    requires TotalPreorder(le)
    ensures le(x, x) && (le(x, y) || le(y, x))
    ensures le(x, y) && le(y, z) ==> le(x, z)
  {
  }

  ghost predicate LeastOf<T>(le: (T, T) -> bool, x: T, s: set<T>) {
    x in s && forall y :: y in s ==> le(x, y)
  }

  lemma {:induction false} LeastExists<T(!new)>(le: (T, T) -> bool, s: set<T>) returns (least: T)
    requires TotalPreorder(le) && s != {}
    ensures LeastOf(le, least, s)
  {
    var x :| x in s;
    least := x;
    if s == {x} {
      Chain(le, x, x, x);
    } else {
      var m := LeastExists(le, s - {x});
      least := LesserIsLeast(le, x, m, s);
    }
  }

  lemma LesserIsLeast<T(!new)>(le: (T, T) -> bool, x: T, m: T, s: set<T>) returns (least: T)
    requires TotalPreorder(le) && x in s && LeastOf(le, m, s - {x})
    ensures LeastOf(le, least, s)
  {
    Chain(le, x, m, m);
    least := if le(x, m) then x else m;
    forall y | y in s ensures le(least, y) {
      if y != x {
        assert y in s - {x};
        Chain(le, x, m, y);
      }
    }
  }

  function Least(s: set<string>): (x: string)
    requires s != {}
    ensures x in s && forall y :: y in s ==> Text.StringLe(x, y)
  {
    StringOrder();
    assert exists x :: x in s && forall y :: y in s ==> Text.StringLe(x, y) by {
      var least := LeastExists(Text.StringLe, s);
    }
    var x :| x in s && forall y :: y in s ==> Text.StringLe(x, y);
    x
  }

  /** `sorted(set)` for strings: every element once, in order. */
  function SortedStrings(s: set<string>): (r: seq<string>)
    ensures forall x :: x in r <==> x in s
    ensures Distinct(r)
    decreases |s|
  {
    if s == {} then [] else
      var x := Least(s);
      [x] + SortedStrings(s - {x})
  }

  lemma {:induction false} SortedStringsSorted(s: set<string>)
    ensures SortedBy(Text.StringLe, SortedStrings(s))
    decreases |s|
  {
    if s != {} {
      SortedStringsSorted(s - {Least(s)});
    }
  }
}
