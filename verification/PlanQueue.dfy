/** What "first in, first out" means for the order in which steps become ready. */
module PlanQueue {
  import opened Seqs
  import opened PlanGraph

  /** All in-plan ids among these are done. */
  ghost predicate Satisfied(g: Graph, deps: seq<Id>, done: set<Id>) {
    forall d :: d in deps && d in g ==> d in done
  }

  /** `y` stands before `x` in the list. */
  ghost predicate Precedes(ids: seq<Id>, y: Id, x: Id) {
    exists i, j :: 0 <= i < j < |ids| && ids[i] == y && ids[j] == x
  }

  ghost predicate Ready(g: Graph, order: seq<Id>, x: Id) {
    x in g ==> Satisfied(g, g[x], SetOf(order))
  }

  /** After how many ids of the order the last in-plan dependency of x has been produced. */
  ghost function Due(g: Graph, order: seq<Id>, x: Id): (n: nat)
    ensures n <= |order|
  {
    if order == [] then 0 else
      var front := order[..|order| - 1];
      if Ready(g, front, x) then Due(g, front, x) else |order|
  }

  lemma DueSnoc(g: Graph, order: seq<Id>, node: Id, x: Id)
    ensures Due(g, order + [node], x) == if Ready(g, order, x) then Due(g, order, x) else |order| + 1
  {
    TakeAll(order, node);
  }

  /** Once it is ready, nothing that comes later matters. */
  lemma {:induction false} DueStays(g: Graph, order: seq<Id>, k: nat, x: Id)
    requires k <= |order| && Ready(g, order[..k], x)
    ensures Due(g, order, x) == Due(g, order[..k], x)
    decreases |order|
  {
    if k == |order| {
      assert order[..k] == order;
    } else {
      var front := order[..|order| - 1];
      assert front[..k] == order[..k];
      assert SetOf(order[..k]) <= SetOf(front);
      DueStays(g, front, k, x);
    }
  }

  /** Of two ids the one that was ready first comes first, and the plan decides between equals. */
  ghost predicate Before(g: Graph, ids: seq<Id>, order: seq<Id>, x: Id, y: Id) {
    Due(g, order, x) < Due(g, order, y) || (Due(g, order, x) == Due(g, order, y) && Precedes(ids, x, y))
  }

  ghost predicate FirstInFirstOut(g: Graph, ids: seq<Id>, order: seq<Id>, listed: seq<Id>) {
    forall i, j :: 0 <= i < j < |listed| ==> Before(g, ids, order, listed[i], listed[j])
  }

  ghost predicate PlanOrdered(ids: seq<Id>, listed: seq<Id>) {
    forall i, j :: 0 <= i < j < |listed| ==> Precedes(ids, listed[i], listed[j])
  }

  ghost predicate AllReady(g: Graph, order: seq<Id>, listed: seq<Id>) {
    forall x :: x in listed ==> Ready(g, order, x)
  }

  /** Producing one id and queueing, in plan order, those that became ready by it. */
  lemma {:induction false} QueueStep(g: Graph, ids: seq<Id>, order: seq<Id>, node: Id, listed: seq<Id>, added: seq<Id>)
    requires FirstInFirstOut(g, ids, order, listed) && AllReady(g, order, listed)
    requires PlanOrdered(ids, added) && AllReady(g, order + [node], added)
    requires forall x :: x in added ==> !Ready(g, order, x)
    ensures FirstInFirstOut(g, ids, order + [node], listed + added)
    ensures AllReady(g, order + [node], listed + added)
  {
    var longer, all := order + [node], listed + added;
    assert SetOf(order) <= SetOf(longer);
    forall i, j | 0 <= i < j < |all| ensures Before(g, ids, longer, all[i], all[j]) {
      DueSnoc(g, order, node, all[i]);
      DueSnoc(g, order, node, all[j]);
      if j < |listed| {
        assert Before(g, ids, order, listed[i], listed[j]);
      } else if i >= |listed| {
        assert Precedes(ids, added[i - |listed|], added[j - |listed|]);
      } else {
        assert all[j] == added[j - |listed|];
      }
    }
  }

  lemma {:induction false} QueueStart(g: Graph, ids: seq<Id>, listed: seq<Id>)
    requires PlanOrdered(ids, listed)
    ensures FirstInFirstOut(g, ids, [], listed)
  {
  }

  lemma PlanOrderedSnoc(ids: seq<Id>, j: nat, listed: seq<Id>)
    requires j < |ids| && PlanOrdered(ids, listed) && forall x :: x in listed ==> x in ids[..j]
    ensures PlanOrdered(ids, listed + [ids[j]])
    ensures forall x :: x in listed + [ids[j]] ==> x in ids[..j + 1]
  {
    TakeMore(ids, j);
    forall i, k | 0 <= i < k < |listed| + 1
      ensures Precedes(ids, (listed + [ids[j]])[i], (listed + [ids[j]])[k])
    {
      if k == |listed| {
        var p := IndexOf(ids[..j], listed[i]);
        assert ids[p] == listed[i];
      }
    }
  }

  // ----- the discipline determines the order -----

  lemma PrecedesOneWay(ids: seq<Id>, x: Id, y: Id)
    requires Distinct(ids)
    ensures !(Precedes(ids, x, y) && Precedes(ids, y, x))
  {
  }

  /** An order in which every id is ready when it comes, and which is first in, first out. */
  ghost predicate Queued(g: Graph, ids: seq<Id>, order: seq<Id>) {
    && Distinct(order) && FirstInFirstOut(g, ids, order, order)
    && forall k :: 0 <= k < |order| ==> Ready(g, order[..k], order[k])
  }

  /** Two such orders of the same ids that agree up to k agree at k. */
  lemma {:induction false} NextIsForced(g: Graph, ids: seq<Id>, p: seq<Id>, q: seq<Id>, k: nat)
    requires Distinct(ids) && Queued(g, ids, p) && Queued(g, ids, q) && SetOf(p) == SetOf(q)
    requires k < |p| && k < |q| && p[..k] == q[..k]
    ensures p[k] == q[k]
  {
    var x, y := p[k], q[k];
    if x != y {
      DueStays(g, p, k, x);
      DueStays(g, q, k, y);
      Later(g, ids, p, q, k);
      Later(g, ids, q, p, k);
      PrecedesOneWay(ids, x, y);
    }
  }

  /** What q has at k comes behind k in p, where it is due as it is in q. */
  lemma {:induction false} Later(g: Graph, ids: seq<Id>, p: seq<Id>, q: seq<Id>, k: nat)
    requires Queued(g, ids, p) && Queued(g, ids, q) && SetOf(p) == SetOf(q)
    requires k < |p| && k < |q| && p[..k] == q[..k] && p[k] != q[k]
    ensures Before(g, ids, p, p[k], q[k])
    ensures Due(g, p, q[k]) == Due(g, q, q[k]) && Due(g, q, q[k]) == Due(g, q[..k], q[k])
  {
    var y := q[k];
    assert y in SetOf(p);
    var j := IndexOf(p, y);
    assert forall m :: 0 <= m < k ==> p[m] == q[..k][m] && q[m] != y;
    DueStays(g, q, k, y);
    DueStays(g, p, k, y);
  }

  /** There is only one such order. */
  lemma {:induction false} QueueDeterminesOrder(g: Graph, ids: seq<Id>, p: seq<Id>, q: seq<Id>)
    requires Distinct(ids) && Queued(g, ids, p) && Queued(g, ids, q) && SetOf(p) == SetOf(q)
    ensures p == q
  {
    DistinctSize(p);
    DistinctSize(q);
    SameUpTo(g, ids, p, q, |p|);
    assert p[..|p|] == p && q[..|p|] == q;
  }

  lemma {:induction false} SameUpTo(g: Graph, ids: seq<Id>, p: seq<Id>, q: seq<Id>, k: nat)
    requires Distinct(ids) && Queued(g, ids, p) && Queued(g, ids, q) && SetOf(p) == SetOf(q)
    requires k <= |p| == |q|
    ensures p[..k] == q[..k]
  {
    if k > 0 {
      SameUpTo(g, ids, p, q, k - 1);
      NextIsForced(g, ids, p, q, k - 1);
      TakeMore(p, k - 1);
      TakeMore(q, k - 1);
    }
  }
}
