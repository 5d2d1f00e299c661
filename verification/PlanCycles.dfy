/** `_find_cycles`: depth-first search with a recursion stack. */
module PlanCycles {
  import opened Seqs
  import opened PlanGraph

  // ----- what a search reports -----

  function Dependencies(g: Graph, x: Id): seq<Id> {
    if x in g then g[x] else []
  }

  /** How many of the reported cycles are closed by the edge from x to y. */
  function ClosedBy(cycles: seq<seq<Id>>, x: Id, y: Id): nat {
    if cycles == [] then 0 else
      var c := cycles[|cycles| - 1];
      ClosedBy(cycles[..|cycles| - 1], x, y) + if |c| >= 2 && c[|c| - 2] == x && c[|c| - 1] == y then 1 else 0
  }

  /** One more report closed by this edge, and none by another. */
  ghost predicate ClosesOneMore(before: seq<seq<Id>>, after: seq<seq<Id>>, u: Id, v: Id) {
    forall x, y {:trigger ClosedBy(after, x, y)} ::
      ClosedBy(after, x, y) == ClosedBy(before, x, y) + if x == u && y == v then 1 else 0
  }

  /** No more reports closed by edges out of these ids. */
  ghost predicate ClosesNoMore(before: seq<seq<Id>>, after: seq<seq<Id>>, ids: set<Id>) {
    forall x, y {:trigger ClosedBy(after, x, y)} :: x in ids ==> ClosedBy(after, x, y) == ClosedBy(before, x, y)
  }

  lemma ClosedBySnoc(cycles: seq<seq<Id>>, c: seq<Id>)
    requires |c| >= 2
    ensures ClosesOneMore(cycles, cycles + [c], c[|c| - 2], c[|c| - 1])
  {
    TakeAll(cycles, c);
  }

  lemma {:induction false} ClosedByMember(cycles: seq<seq<Id>>, x: Id, y: Id) returns (c: seq<Id>)
    requires ClosedBy(cycles, x, y) > 0
    ensures c in cycles && |c| >= 2 && c[|c| - 2] == x && c[|c| - 1] == y
  {
    c := cycles[|cycles| - 1];
    if ClosedBy(cycles[..|cycles| - 1], x, y) > 0 {
      c := ClosedByMember(cycles[..|cycles| - 1], x, y);
    }
  }

  /** Every naming of a dependency that has not returned before its step closes one report, no other does. */
  ghost predicate BackEdgesReported(g: Graph, order: seq<Id>, cycles: seq<seq<Id>>) {
    forall i, y {:trigger ClosedBy(cycles, order[i], y)} :: 0 <= i < |order| ==>
      ClosedBy(cycles, order[i], y) == (if y in order[..i] then 0 else multiset(Dependencies(g, order[i]))[y])
  }

  /** Exactly the edges back to ids that have not returned are reported, once for each naming. */
  ghost predicate Exact(g: Graph, visited: set<Id>, finished: seq<Id>, cycles: seq<seq<Id>>) {
    && (forall x, y :: x in finished && HasEdge(g, x, y) ==> y in visited)
    && (forall x, y :: x !in visited ==> ClosedBy(cycles, x, y) == 0)
    && BackEdgesReported(g, finished, cycles)
  }

  /** What has been reported for the first dependencies of a node: those that were under way. */
  ghost predicate Reported(cycles: seq<seq<Id>>, visited: set<Id>, recStack: set<Id>, node: Id, deps: seq<Id>) {
    && (forall y :: y in deps ==> y in visited)
    && forall y :: ClosedBy(cycles, node, y) == if y in recStack then multiset(deps)[y] else 0
  }

  lemma ReportedSnoc(before: seq<seq<Id>>, after: seq<seq<Id>>, visited: set<Id>, visited': set<Id>,
                     recStack: set<Id>, node: Id, deps: seq<Id>, dep: Id)
    requires Reported(before, visited, recStack, node, deps) && visited <= visited' && dep in visited'
    requires if dep in recStack then ClosesOneMore(before, after, node, dep) else ClosesNoMore(before, after, {node})
    ensures Reported(after, visited', recStack, node, deps + [dep])
  {
  }

  /** The variables the nested function `dfs` shares with `_find_cycles`. */
  class CycleFinder {
    const g: Graph
    var visited: set<Id>
    var recStack: set<Id>
    var path: seq<Id>
    var cycles: seq<seq<Id>>
    // ids whose call has returned, in order of return
    ghost var finished: seq<Id>

    constructor (g: Graph)
      ensures this.g == g && Valid() && path == [] && cycles == [] && visited == {}
    {
      this.g := g;
      visited, recStack, path, cycles, finished := {}, {}, [], [], [];
    }

    ghost predicate Valid()
      reads this
    {
      && Distinct(path) && recStack == SetOf(path)
      && (path == [] || Walk(g, path))
      && Distinct(finished) && recStack !! SetOf(finished)
      && visited == recStack + SetOf(finished)
      && (forall c :: c in cycles ==> SimpleCycle(g, c))
      && Exact(g, visited, finished, cycles)
    }

    /** `universe` bounds the ids the search can meet; the unvisited part of it shrinks. */
    method Dfs(node: Id, ghost universe: set<Id>)
      requires Valid() && node !in visited && node in universe && visited <= universe
      requires forall x, y :: HasEdge(g, x, y) ==> y in universe
      requires path != [] ==> HasEdge(g, path[|path| - 1], node)
      modifies this
      ensures Valid() && path == old(path) && node in finished
      ensures old(visited) <= visited <= universe
      ensures old(finished) <= finished && old(cycles) <= cycles
      ensures ClosesNoMore(old(cycles), cycles, recStack)
      decreases universe - visited, 0
    {
      Enter(node);
      FollowAll(node, universe);
      Leave(node);
    }

    /** The loop over the dependencies of the node just entered. */
    method FollowAll(node: Id, ghost universe: set<Id>)
      requires Valid() && path != [] && path[|path| - 1] == node && visited <= universe
      requires forall x, y :: HasEdge(g, x, y) ==> y in universe
      requires Reported(cycles, visited, recStack, node, [])
      modifies this
      ensures Valid() && path == old(path) && old(visited) <= visited <= universe
      ensures old(finished) <= finished && old(cycles) <= cycles
      ensures Reported(cycles, visited, recStack, node, Dependencies(g, node))
      ensures ClosesNoMore(old(cycles), cycles, recStack - {node})
      decreases universe - visited, 2
    {
      var dependencies := if node in g then g[node] else [];
      for k := 0 to |dependencies|
        invariant Valid() && path == old(path) && old(visited) <= visited <= universe
        invariant old(finished) <= finished && old(cycles) <= cycles
        invariant Reported(cycles, visited, recStack, node, dependencies[..k])
        invariant ClosesNoMore(old(cycles), cycles, recStack - {node})
      {
        assert HasEdge(g, node, dependencies[k]);
        TakeMore(dependencies, k);
        Follow(node, dependencies[k], dependencies[..k], universe);
      }
      assert dependencies[..|dependencies|] == dependencies;
    }

    /** One pass of the loop over the dependencies. */
    method Follow(node: Id, dep: Id, ghost done: seq<Id>, ghost universe: set<Id>)
      requires Valid() && path != [] && path[|path| - 1] == node && HasEdge(g, node, dep) && visited <= universe
      requires forall x, y :: HasEdge(g, x, y) ==> y in universe
      requires Reported(cycles, visited, recStack, node, done)
      modifies this
      ensures Valid() && path == old(path) && old(visited) <= visited <= universe
      ensures old(finished) <= finished && old(cycles) <= cycles
      ensures Reported(cycles, visited, recStack, node, done + [dep])
      ensures ClosesNoMore(old(cycles), cycles, recStack - {node})
      decreases universe - visited, 1
    {
      ghost var cycles0, visited0 := cycles, visited;
      if dep !in visited {
        Dfs(dep, universe);
      } else if dep in recStack {
        ReportCycle(dep);
      }
      ReportedSnoc(cycles0, cycles, visited0, visited, recStack, node, done, dep);
    }

    method Enter(node: Id)
      requires Valid() && node !in visited
      requires path != [] ==> HasEdge(g, path[|path| - 1], node)
      modifies this
      ensures Valid() && path == old(path) + [node] && visited == old(visited) + {node}
      ensures finished == old(finished) && cycles == old(cycles)
      ensures Reported(cycles, visited, recStack, node, [])
    {
      visited, recStack, path := visited + {node}, recStack + {node}, path + [node];
      assert path[..|path| - 1] == old(path);
    }

    method ReportCycle(dep: Id)
      requires Valid() && dep in recStack
      requires path != [] && HasEdge(g, path[|path| - 1], dep)
      modifies `cycles
      ensures Valid() && old(cycles) <= cycles
      ensures ClosesOneMore(old(cycles), cycles, path[|path| - 1], dep)
    {
      var cycleStart := IndexOf(path, dep);
      var cycle := path[cycleStart..] + [dep];
      WalkSlice(g, path, cycleStart, |path|);
      ExtendWalk(g, path[cycleStart..|path|], dep);
      assert cycle[..|cycle| - 1] == path[cycleStart..];
      ClosedBySnoc(cycles, cycle);
      cycles := cycles + [cycle];
    }

    method Leave(node: Id)
      requires Valid() && path != [] && path[|path| - 1] == node
      requires Reported(cycles, visited, recStack, node, Dependencies(g, node))
      modifies this
      ensures Valid() && path == old(path)[..|old(path)| - 1] && visited == old(visited)
      ensures finished == old(finished) + [node] && cycles == old(cycles)
    {
      assert node in recStack;
      recStack := recStack - {node};
      path := path[..|path| - 1];
      LeftIsReported(g, finished, cycles, node, old(recStack));
      finished := finished + [node];
    }
  }

  lemma LeftIsReported(g: Graph, finished: seq<Id>, cycles: seq<seq<Id>>, node: Id, recStack: set<Id>)
    requires BackEdgesReported(g, finished, cycles) && recStack !! SetOf(finished)
    requires Reported(cycles, recStack + SetOf(finished), recStack, node, Dependencies(g, node))
    ensures BackEdgesReported(g, finished + [node], cycles)
  {
    var order := finished + [node];
    forall i, y {:trigger ClosedBy(cycles, order[i], y)} | 0 <= i < |order|
      ensures ClosedBy(cycles, order[i], y) == (if y in order[..i] then 0 else multiset(Dependencies(g, order[i]))[y])
    {
      if i < |finished| {
        assert order[..i] == finished[..i] && order[i] == finished[i];
      } else {
        assert order[..i] == finished;
        assert y in finished ==> y in SetOf(finished);
      }
    }
  }

  // ----- what follows from it -----

  /** An order of ids, each once, that holds every step and every dependency of an id in it. */
  ghost predicate Covers(g: Graph, order: seq<Id>) {
    && Distinct(order) && (forall x :: x in g ==> x in order)
    && forall x, y :: x in order && HasEdge(g, x, y) ==> y in order
  }

  /** The reports of a depth-first search: the edges that some order of return does not respect, each as
      often as it is named. */
  ghost predicate SearchReport(g: Graph, cycles: seq<seq<Id>>) {
    && (forall c :: c in cycles ==> SimpleCycle(g, c))
    && exists order :: Covers(g, order) && BackEdgesReported(g, order, cycles)
  }

  /** An edge that is not reported leads to an id that returned before. */
  lemma UnreportedIsOrdered(g: Graph, order: seq<Id>, cycles: seq<seq<Id>>, x: Id, y: Id) returns (i: nat)
    requires Covers(g, order) && BackEdgesReported(g, order, cycles)
    requires HasEdge(g, x, y) && ClosedBy(cycles, x, y) == 0
    ensures i < |order| && order[i] == x && y in order[..i]
  {
    i := IndexOf(order, x);
    assert ClosedBy(cycles, order[i], y) == 0;
    assert multiset(Dependencies(g, x))[y] > 0;
  }

  /** The i-th edge of the walk closes a reported cycle. */
  predicate EdgeIsReported(cycles: seq<seq<Id>>, w: seq<Id>, i: nat)
    requires i + 1 < |w|
  {
    ClosedBy(cycles, w[i], w[i + 1]) > 0
  }

  ghost predicate TakesReportedEdge(cycles: seq<seq<Id>>, w: seq<Id>) {
    exists i: nat :: i + 1 < |w| && EdgeIsReported(cycles, w, i)
  }

  /** Every closed walk takes an edge that closes a reported cycle. */
  lemma {:induction false} ClosedWalkTakesReportedEdge(g: Graph, cycles: seq<seq<Id>>, w: seq<Id>)
    requires SearchReport(g, cycles) && ClosedWalk(g, w)
    ensures TakesReportedEdge(cycles, w)
  {
    var order :| Covers(g, order) && BackEdgesReported(g, order, cycles);
    if !TakesReportedEdge(cycles, w) {
      assert HasEdge(g, w[0], w[1]);
      var start := IndexOf(order, w[0]);
      var end := WalkGoesLeft(g, order, cycles, w, start);
    }
  }

  /** Without reported edges a walk goes strictly to the left in the order. */
  lemma {:induction false} WalkGoesLeft(g: Graph, order: seq<Id>, cycles: seq<seq<Id>>, w: seq<Id>, start: nat)
    returns (end: nat)
    requires Covers(g, order) && BackEdgesReported(g, order, cycles)
    requires Walk(g, w) && !TakesReportedEdge(cycles, w)
    requires start < |order| && order[start] == w[0]
    ensures end <= start && order[end] == w[|w| - 1] && (|w| >= 2 ==> end < start)
    decreases |w|
  {
    if |w| == 1 {
      end := start;
    } else {
      assert HasEdge(g, w[0], w[1]);
      assert !EdgeIsReported(cycles, w, 0);
      var i := UnreportedIsOrdered(g, order, cycles, w[0], w[1]);
      assert i == start;
      var next := IndexOf(order[..start], w[1]);
      WalkSlice(g, w, 1, |w|);
      assert forall i: nat :: i + 2 < |w| ==> EdgeIsReported(cycles, w[1..|w|], i) == EdgeIsReported(cycles, w, i + 1);
      end := WalkGoesLeft(g, order, cycles, w[1..|w|], next);
    }
  }

  /** So nothing is reported exactly on acyclic plans. */
  lemma NothingReportedIff(g: Graph, cycles: seq<seq<Id>>)
    requires SearchReport(g, cycles)
    ensures cycles == [] <==> Acyclic(g)
  {
    if cycles == [] {
      forall w ensures !ClosedWalk(g, w) {
        if ClosedWalk(g, w) {
          ClosedWalkTakesReportedEdge(g, cycles, w);
        }
      }
    } else {
      assert SimpleCycle(g, cycles[0]);
    }
  }

  /** Sound and complete: simple cycles along real dependency edges, first id repeated at the end, one for
      every naming of a dependency that leads back, so that no cycle of the plan avoids them all. */
  method FindCycles(steps: seq<StepData>) returns (cycles: seq<seq<Id>>)
    ensures SearchReport(GraphOf(steps), cycles)
    ensures cycles == [] <==> Acyclic(GraphOf(steps))
    ensures forall w :: ClosedWalk(GraphOf(steps), w) ==> TakesReportedEdge(cycles, w)
  {
    var g := GraphOf(steps);
    var finder := new CycleFinder(g);
    ghost var universe := Universe(g) + SetOf(Ids(steps));
    for i := 0 to |steps|
      invariant fresh(finder) && finder.g == g && finder.Valid() && finder.path == []
      invariant finder.visited <= universe
      invariant forall k :: 0 <= k < i ==> steps[k].id in finder.finished
    {
      if steps[i].id !in finder.visited {
        finder.Dfs(steps[i].id, universe);
      }
    }
    cycles := finder.cycles;
    GraphOfKeys(steps);
    assert Covers(g, finder.finished);
    NothingReportedIff(g, cycles);
    forall w | ClosedWalk(g, w) ensures TakesReportedEdge(cycles, w) {
      ClosedWalkTakesReportedEdge(g, cycles, w);
    }
  }
}
