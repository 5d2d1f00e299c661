/** The dependency graph of a plan: walks, cycles, and what an ordering says about them. */
module PlanGraph {
  import opened Seqs

  /** A step id. Ids are only ever compared; the wrapper keeps their text out of the proofs. */
  datatype Id = Id(text: string)

  /** The part of a planned step that no algorithm below changes. */
  datatype StepData = StepData(
    id: Id,
    dependencies: seq<Id>,
    readSet: seq<string>,
    writeSet: seq<string>,
    sharedResources: seq<string>,
    parallelSafe: bool)

  /** `step_map`, reduced to dependency lists. Ids that are not keys have no outgoing edges. */
  type Graph = map<Id, seq<Id>>

  /** As a Python dict comprehension builds it: a later step replaces an earlier one with its id. */
  function GraphOf(steps: seq<StepData>): Graph {
    if steps == [] then map[] else
      var last := steps[|steps| - 1];
      GraphOf(steps[..|steps| - 1])[last.id := last.dependencies]
  }

  function Ids(steps: seq<StepData>): (r: seq<Id>)
    ensures |r| == |steps|
    ensures forall i :: 0 <= i < |r| ==> r[i] == steps[i].id
  {
    seq(|steps|, i requires 0 <= i < |steps| => steps[i].id)
  }

  ghost predicate UniqueIds(steps: seq<StepData>) {
    Distinct(Ids(steps))
  }

  lemma {:induction false} GraphOfKeys(steps: seq<StepData>)
    ensures GraphOf(steps).Keys == SetOf(Ids(steps))
  {
    if steps != [] {
      var front := steps[..|steps| - 1];
      GraphOfKeys(front);
      assert Ids(steps) == Ids(front) + [steps[|steps| - 1].id];
    }
  }

  lemma {:induction false} GraphOfAt(steps: seq<StepData>, i: nat)
    requires UniqueIds(steps) && i < |steps|
    ensures steps[i].id in GraphOf(steps) && GraphOf(steps)[steps[i].id] == steps[i].dependencies
  {
    if i < |steps| - 1 {
      var front := steps[..|steps| - 1];
      assert forall k :: 0 <= k < |front| ==> Ids(front)[k] == Ids(steps)[k];
      GraphOfAt(front, i);
      assert Ids(steps)[i] != Ids(steps)[|steps| - 1];
    }
  }

  /** `g` is the step map of a plan with unique ids. */
  ghost predicate Indexes(g: Graph, steps: seq<StepData>) {
    && UniqueIds(steps)
    && (forall x :: x in g <==> x in Ids(steps))
    && forall i :: 0 <= i < |steps| ==> steps[i].id in g && g[steps[i].id] == steps[i].dependencies
  }

  lemma {:induction false} GraphIndexes(steps: seq<StepData>)
    requires UniqueIds(steps)
    ensures Indexes(GraphOf(steps), steps)
  {
    GraphOfKeys(steps);
    forall i | 0 <= i < |steps|
      ensures steps[i].id in GraphOf(steps) && GraphOf(steps)[steps[i].id] == steps[i].dependencies
    {
      GraphOfAt(steps, i);
    }
  }

  predicate HasEdge(g: Graph, x: Id, y: Id) {
    x in g && y in g[x]
  }

  ghost predicate Walk(g: Graph, p: seq<Id>) {
    |p| >= 1 && forall i :: 0 <= i < |p| - 1 ==> HasEdge(g, p[i], p[i + 1])
  }

  ghost predicate WalkBetween(g: Graph, p: seq<Id>, x: Id, y: Id) {
    Walk(g, p) && p[0] == x && p[|p| - 1] == y
  }

  /** Reflexive: every id reaches itself by the one-element walk. */
  ghost predicate Reaches(g: Graph, x: Id, y: Id) {
    exists p :: WalkBetween(g, p, x, y)
  }

  ghost predicate ClosedWalk(g: Graph, c: seq<Id>) {
    |c| >= 2 && Walk(g, c) && c[0] == c[|c| - 1]
  }

  ghost predicate SimpleCycle(g: Graph, c: seq<Id>) {
    ClosedWalk(g, c) && Distinct(c[..|c| - 1])
  }

  ghost predicate Acyclic(g: Graph) {
    forall c :: !ClosedWalk(g, c)
  }

  ghost predicate OnCycle(g: Graph, x: Id) {
    exists c :: ClosedWalk(g, c) && c[0] == x
  }

  /** Every id appears after all its dependencies that are steps of the plan. */
  ghost predicate Ordered(g: Graph, order: seq<Id>) {
    forall i, y {:trigger HasEdge(g, order[i], y)} ::
      0 <= i < |order| && HasEdge(g, order[i], y) && y in g ==> y in order[..i]
  }

  /** Every id the graph mentions. */
  ghost function Universe(g: Graph): set<Id> {
    g.Keys + set x, y | x in g && y in g[x] :: y
  }

  ghost function ReachSet(g: Graph, x: Id): set<Id> {
    set y | y in Universe(g) + {x} && Reaches(g, x, y)
  }

  lemma ReachesSelf(g: Graph, x: Id)
    ensures Reaches(g, x, x)
  {
    assert WalkBetween(g, [x], x, x);
  }

  lemma {:induction false} JoinWalks(g: Graph, p: seq<Id>, q: seq<Id>)
    requires Walk(g, p) && Walk(g, q) && p[|p| - 1] == q[0]
    ensures WalkBetween(g, p + q[1..], p[0], q[|q| - 1])
  {
    var w := p + q[1..];
    forall i | 0 <= i < |w| - 1 ensures HasEdge(g, w[i], w[i + 1]) {
      if i < |p| - 1 {
        assert HasEdge(g, p[i], p[i + 1]);
      } else {
        var k := i - (|p| - 1);
        assert HasEdge(g, q[k], q[k + 1]);
      }
    }
  }

  lemma {:induction false} ExtendWalk(g: Graph, p: seq<Id>, y: Id)
    requires Walk(g, p) && HasEdge(g, p[|p| - 1], y)
    ensures Walk(g, p + [y])
  {
    var w := p + [y];
    forall i | 0 <= i < |w| - 1 ensures HasEdge(g, w[i], w[i + 1]) {
      if i < |p| - 1 {
        assert HasEdge(g, p[i], p[i + 1]);
      }
    }
  }

  lemma {:induction false} WalkSlice(g: Graph, p: seq<Id>, i: nat, j: nat)
    requires Walk(g, p) && i < j <= |p|
    ensures Walk(g, p[i..j])
  {
    var w := p[i..j];
    forall k | 0 <= k < |w| - 1 ensures HasEdge(g, w[k], w[k + 1]) {
      assert HasEdge(g, p[i + k], p[i + k + 1]);
    }
  }

  /** An edge from the end of a walk back into it closes a cycle the walk's start reaches. */
  lemma LoopCloses(g: Graph, p: seq<Id>, y: Id)
    requires Walk(g, p) && HasEdge(g, p[|p| - 1], y) && y in p
    ensures OnCycle(g, y) && Reaches(g, p[0], y)
  {
    var i := IndexOf(p, y);
    ExtendWalk(g, p, y);
    WalkSlice(g, p + [y], i, |p| + 1);
    assert ClosedWalk(g, (p + [y])[i..|p| + 1]);
    WalkSlice(g, p, 0, i + 1);
    assert WalkBetween(g, p[0..i + 1], p[0], y);
  }

  lemma StepThenReach(g: Graph, x: Id, d: Id, y: Id)
    requires HasEdge(g, x, d) && Reaches(g, d, y)
    ensures Reaches(g, x, y)
  {
    var q :| WalkBetween(g, q, d, y);
    assert Walk(g, [x, d]);
    JoinWalks(g, [x, d], q);
    assert WalkBetween(g, [x, d] + q[1..], x, y);
  }

  /** A walk that takes an edge out of x and comes back is a closed walk. */
  lemma {:induction false} EdgeAndReturn(g: Graph, x: Id, d: Id) returns (c: seq<Id>)
    requires HasEdge(g, x, d) && Reaches(g, d, x)
    ensures ClosedWalk(g, c) && c[0] == x
  {
    var q :| WalkBetween(g, q, d, x);
    assert Walk(g, [x, d]);
    JoinWalks(g, [x, d], q);
    c := [x, d] + q[1..];
  }

  /** A walk starting inside an ordered list stays inside it and moves strictly to the left. */
  lemma {:induction false} WalkDescends(g: Graph, order: seq<Id>, p: seq<Id>, i: nat) returns (j: nat)
    requires Ordered(g, order) && Walk(g, p) && i < |order| && order[i] == p[0] && p[|p| - 1] in g
    ensures j <= i && order[j] == p[|p| - 1]
    ensures |p| >= 2 ==> j < i
    decreases |p|
  {
    if |p| == 1 {
      j := i;
    } else {
      assert HasEdge(g, p[0], p[1]);
      assert |p| >= 3 ==> HasEdge(g, p[1], p[2]);
      assert p[1] in order[..i];
      var k :| 0 <= k < i && order[k] == p[1];
      WalkSlice(g, p, 1, |p|);
      j := WalkDescends(g, order, p[1..|p|], k);
    }
  }

  /** An ordering of every step that puts dependencies first exists only on acyclic graphs. */
  lemma OrderedIsAcyclic(g: Graph, order: seq<Id>)
    requires Ordered(g, order) && Distinct(order) && g.Keys <= SetOf(order)
    ensures Acyclic(g)
  {
    forall c ensures !ClosedWalk(g, c) {
      if ClosedWalk(g, c) {
        assert HasEdge(g, c[0], c[1]);
        NoCycleThrough(g, order, c);
      }
    }
  }

  lemma {:induction false} NoCycleThrough(g: Graph, order: seq<Id>, c: seq<Id>)
    requires Ordered(g, order) && Distinct(order) && ClosedWalk(g, c)
    ensures c[0] !in order
  {
    if c[0] in order {
      assert HasEdge(g, c[0], c[1]);
      var i := IndexOf(order, c[0]);
      var j := WalkDescends(g, order, c, i);
    }
  }

  /** A dependency reaches strictly less, except along a cycle: what recursion along edges decreases. */
  lemma ReachShrinks(g: Graph, x: Id, d: Id)
    requires !OnCycle(g, x) && HasEdge(g, x, d)
    ensures ReachSet(g, d) < ReachSet(g, x)
  {
    assert d in Universe(g);
    forall y | y in ReachSet(g, d) ensures y in ReachSet(g, x) {
      StepThenReach(g, x, d, y);
    }
    ReachesSelf(g, x);
    if x in ReachSet(g, d) {
      var c := EdgeAndReturn(g, x, d);
    }
  }
}
