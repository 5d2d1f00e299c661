/** Small facts about sequences shared by the other modules. */
module Seqs {

  datatype Option<+T> = None | Some(value: T)

  function Min(a: nat, b: nat): nat {
    if a < b then a else b
  }

  /** The elements of a sequence. */
  function SetOf<T>(s: seq<T>): set<T> {
    set x | x in s
  }

  ghost predicate Distinct<T>(s: seq<T>) {
    forall i, j :: 0 <= i < j < |s| ==> s[i] != s[j]
  }

  lemma ConsConcat<T>(a: seq<T>, b: seq<T>)
    requires a != []
    ensures a + b != [] && (a + b)[0] == a[0] && (a + b)[1..] == a[1..] + b
  {
  }

  lemma Associate<T>(a: seq<T>, b: seq<T>, c: seq<T>)
    ensures a + (b + c) == a + b + c
  {
  }

  lemma TakeMore<T>(s: seq<T>, i: nat)
    requires i < |s|
    ensures s[..i + 1] == s[..i] + [s[i]]
  {
  }

  lemma FrontAndLast<T>(s: seq<T>)
    requires s != []
    ensures s == s[..|s| - 1] + [s[|s| - 1]]
  {
  }

  lemma TakeAll<T>(front: seq<T>, last: T)
    ensures (front + [last])[..|front|] == front
  {
  }

  lemma NilLeft<T>(b: seq<T>)
    ensures [] + b == b && b + [] == b
  {
  }

  lemma InConcat<T>(x: T, a: seq<T>, b: seq<T>)
    ensures x in a + b <==> x in a || x in b
  {
  }

  lemma HasElement<T>(s: seq<T>)
    requires s != []
    ensures exists x :: x in s
  {
    assert s[0] in s;
  }

  /** The first position of `x`, as Python's list.index. */
  function IndexOf<T(==)>(s: seq<T>, x: T): (i: nat)
    requires x in s
    ensures i < |s| && s[i] == x && x !in s[..i]
  {
    if s[0] == x then 0 else
      var i := IndexOf(s[1..], x);
      assert s[..i + 1] == [s[0]] + s[1..][..i];
      i + 1
  }

  /** The elements in order of first occurrence, each once. */
  function Firsts<T(==)>(s: seq<T>): (r: seq<T>)
    ensures Distinct(r)
  {
    if s == [] then [] else
      var front, last := s[..|s| - 1], s[|s| - 1];
      Firsts(front) + if last in Firsts(front) then [] else [last]
  }

  lemma {:induction false} FirstsSnoc<T>(s: seq<T>, x: T)
    ensures Firsts(s + [x]) == Firsts(s) + if x in Firsts(s) then [] else [x]
  {
    assert (s + [x])[..|s|] == s;
  }

  lemma {:induction false} FirstsMembers<T>(s: seq<T>, x: T)
    ensures x in Firsts(s) <==> x in s
  {
    if s != [] {
      var front, last := s[..|s| - 1], s[|s| - 1];
      assert s == front + [last];
      FirstsMembers(front, x);
    }
  }

  lemma {:induction false} DistinctSize<T>(s: seq<T>)
    requires Distinct(s)
    ensures |SetOf(s)| == |s|
  {
    if s != [] {
      var front, last := s[..|s| - 1], s[|s| - 1];
      DistinctSize(front);
      SetOfSnoc(front, last);
      assert s == front + [last];
      assert last !in front;
    }
  }

  lemma SetOfSnoc<T>(front: seq<T>, last: T)
    ensures SetOf(front + [last]) == SetOf(front) + {last}
    ensures last in SetOf(front) <==> last in front
  {
  }

  lemma {:induction false} SetOfSize<T>(s: seq<T>)
    ensures |SetOf(s)| <= |s|
  {
    if s != [] {
      var front := s[..|s| - 1];
      SetOfSize(front);
      SetOfSnoc(front, s[|s| - 1]);
      assert s == front + [s[|s| - 1]];
    }
  }

  lemma {:induction false} FullSizeIsDistinct<T>(s: seq<T>)
    requires |SetOf(s)| == |s|
    ensures Distinct(s)
  {
    if s != [] {
      var front, last := s[..|s| - 1], s[|s| - 1];
      SetOfSize(front);
      SetOfSnoc(front, last);
      assert s == front + [last];
      FullSizeIsDistinct(front);
      assert last !in SetOf(front);
      assert forall i :: 0 <= i < |front| ==> s[i] == front[i] && front[i] in front;
    }
  }

  /** A permutation of a distinct sequence is distinct and has the same elements. */
  lemma PermutationOfDistinct<T>(s: seq<T>, t: seq<T>)
    requires Distinct(s) && multiset(t) == multiset(s)
    ensures Distinct(t) && SetOf(t) == SetOf(s)
  {
    forall x ensures x in t <==> x in s {
      assert x in multiset(t) <==> x in multiset(s);
    }
    assert SetOf(t) == SetOf(s);
    assert |t| == |multiset(t)| == |s|;
    DistinctSize(s);
    FullSizeIsDistinct(t);
  }

  lemma SubsetSize<T>(a: set<T>, b: set<T>)
    requires a <= b
    ensures |a| <= |b|
    ensures a != b ==> |a| < |b|
  {
    assert b == a + (b - a);
    assert a != b ==> b - a != {};
  }

  /** A distinct sequence over exactly the elements of another distinct one is a permutation of it. */
  lemma SameElementsPermute<T>(s: seq<T>, t: seq<T>)
    requires Distinct(s) && Distinct(t) && SetOf(s) == SetOf(t)
    ensures multiset(s) == multiset(t)
  {
    DistinctMultiset(s);
    DistinctMultiset(t);
  }

  lemma {:induction false} DistinctMultiset<T>(s: seq<T>)
    requires Distinct(s)
    ensures multiset(s) == multiset(SetOf(s))
  {
    if s != [] {
      var front, last := s[..|s| - 1], s[|s| - 1];
      DistinctMultiset(front);
      assert s == front + [last];
      assert SetOf(s) == SetOf(front) + {last};
      assert last !in SetOf(front);
    }
  }

  // ----- selections -----

  /** `t` is what stands in `s` at these places, which increase. */
  ghost predicate PickedAt<T>(s: seq<T>, t: seq<T>, places: seq<nat>) {
    && |places| == |t|
    && (forall k :: 0 <= k < |t| ==> places[k] < |s| && t[k] == s[places[k]])
    && forall j, k :: 0 <= j < k < |places| ==> places[j] < places[k]
  }

  lemma PickedSnoc<T>(front: seq<T>, last: T, t: seq<T>, places: seq<nat>)
    requires PickedAt(front, t, places)
    ensures PickedAt(front + [last], t, places) && PickedAt(front + [last], t + [last], places + [|front|])
  {
  }

  /** The next element is picked or left out. */
  lemma PickNext<T>(front: seq<T>, last: T, t: seq<T>, places: seq<nat>, pick: bool) returns (next: seq<nat>)
    requires PickedAt(front, t, places)
    ensures PickedAt(front + [last], if pick then t + [last] else t, next)
    ensures SetOf(next) == SetOf(places) + if pick then {|front|} else {}
  {
    PickedSnoc(front, last, t, places);
    SetOfSnoc(places, |front|);
    next := if pick then places + [|front|] else places;
  }

  /** Two elements stand in the list of first occurrences as their first occurrences stand in the list itself. */
  lemma {:induction false} FirstsInOrder<T>(s: seq<T>, i: nat, j: nat)
    requires i < j < |Firsts(s)|
    ensures Firsts(s)[i] in s && Firsts(s)[j] in s && IndexOf(s, Firsts(s)[i]) < IndexOf(s, Firsts(s)[j])
  {
    var front, last := s[..|s| - 1], s[|s| - 1];
    FrontAndLast(s);
    FirstsMembers(s, Firsts(s)[i]);
    FirstsMembers(s, Firsts(s)[j]);
    FirstsMembers(front, Firsts(s)[i]);
    IndexOfFront(front, last, Firsts(s)[i]);
    if j < |Firsts(front)| {
      FirstsInOrder(front, i, j);
      FirstsMembers(front, Firsts(s)[j]);
      IndexOfFront(front, last, Firsts(s)[j]);
    } else {
      FirstsMembers(front, last);
      assert forall m :: 0 <= m < |front| ==> s[m] == front[m] && front[m] in front;
    }
  }

  lemma {:induction false} IndexOfFront<T>(front: seq<T>, last: T, x: T)
    ensures x in front ==> IndexOf(front + [last], x) == IndexOf(front, x)
  {
    if x in front {
      var s := front + [last];
      var i, j := IndexOf(s, x), IndexOf(front, x);
      assert s[j] == x;
      assert forall k :: 0 <= k < i ==> s[..i][k] == s[k];
      assert forall k :: 0 <= k < j ==> front[..j][k] == s[k];
    }
  }
}
