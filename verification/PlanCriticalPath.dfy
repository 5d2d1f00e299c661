/** `_find_critical_path`: the longest dependency chain, by memoised recursion. */
module PlanCriticalPath {
  import opened Seqs
  import opened PlanGraph
  import opened PlanCycles

  /** Dependencies first: each id is a dependency of the next. */
  ghost predicate Chain(g: Graph, p: seq<Id>) {
    |p| >= 1 && forall i :: 0 <= i < |p| - 1 ==> HasEdge(g, p[i + 1], p[i])
  }

  ghost predicate ChainTo(g: Graph, p: seq<Id>, x: Id) {
    Chain(g, p) && p[|p| - 1] == x
  }

  /** `longest_path` without its memo. It recurses because nothing is reached twice on one path. */
  ghost function Longest(g: Graph, x: Id): seq<Id>
    requires Acyclic(g)
    decreases ReachSet(g, x), 1, 0
  {
    if x !in g || g[x] == [] then [x] else BestOf(g, x, |g[x]|) + [x]
  }

  /** The first longest path among the first k dependencies of x. */
  ghost function BestOf(g: Graph, x: Id, k: nat): seq<Id>
    requires Acyclic(g) && x in g && k <= |g[x]|
    decreases ReachSet(g, x), 0, k
  {
    if k == 0 then [] else
      var best := BestOf(g, x, k - 1);
      assert HasEdge(g, x, g[x][k - 1]);
      ReachShrinks(g, x, g[x][k - 1]);
      var path := Longest(g, g[x][k - 1]);
      if |path| > |best| then path else best
  }

  lemma {:induction false} BestOfIsBest(g: Graph, x: Id, k: nat)
    requires Acyclic(g) && x in g && k <= |g[x]|
    ensures forall j :: 0 <= j < k ==> |Longest(g, g[x][j])| <= |BestOf(g, x, k)|
    ensures k > 0 ==> exists j :: 0 <= j < k && BestOf(g, x, k) == Longest(g, g[x][j])
    decreases k
  {
    if k > 0 {
      BestOfIsBest(g, x, k - 1);
      var path := Longest(g, g[x][k - 1]);
      if |path| > |BestOf(g, x, k - 1)| {
        assert BestOf(g, x, k) == path;
      } else {
        assert |path| >= 1;
        var j :| 0 <= j < k - 1 && BestOf(g, x, k - 1) == Longest(g, g[x][j]);
      }
    }
  }

  /** A chain of real dependency edges that ends in x. */
  lemma {:induction false} LongestIsChain(g: Graph, x: Id)
    requires Acyclic(g)
    ensures ChainTo(g, Longest(g, x), x)
    decreases ReachSet(g, x)
  {
    if x in g && g[x] != [] {
      BestOfIsBest(g, x, |g[x]|);
      var j :| 0 <= j < |g[x]| && BestOf(g, x, |g[x]|) == Longest(g, g[x][j]);
      assert HasEdge(g, x, g[x][j]);
      ReachShrinks(g, x, g[x][j]);
      LongestIsChain(g, g[x][j]);
    }
  }

  /** No chain that ends in x is longer. */
  lemma {:induction false} LongestBounds(g: Graph, x: Id, q: seq<Id>)
    requires Acyclic(g) && ChainTo(g, q, x)
    ensures |q| <= |Longest(g, x)|
    decreases |q|
  {
    if |q| >= 2 {
      var front := q[..|q| - 1];
      assert HasEdge(g, q[|q| - 1], q[|q| - 2]);
      var j := IndexOf(g[x], q[|q| - 2]);
      assert forall i :: 0 <= i < |front| - 1 ==> HasEdge(g, q[i + 1], q[i]);
      LongestBounds(g, g[x][j], front);
      BestOfIsBest(g, x, |g[x]|);
    }
  }

  /** The longest paths to all of these are no longer than to the j-th, and to those before it shorter. */
  ghost predicate FirstDeepest(g: Graph, choices: seq<Id>, j: nat)
    requires Acyclic(g)
  {
    && j < |choices|
    && (forall k :: 0 <= k < |choices| ==> |Longest(g, choices[k])| <= |Longest(g, choices[j])|)
    && forall k :: 0 <= k < j ==> |Longest(g, choices[k])| < |Longest(g, choices[j])|
  }

  lemma DeepestNext(g: Graph, choices: seq<Id>, i: nat, j: nat)
    requires Acyclic(g) && i < |choices| && (i > 0 ==> FirstDeepest(g, choices[..i], j))
    ensures i == 0 || |Longest(g, choices[i])| > |Longest(g, choices[j])| ==> FirstDeepest(g, choices[..i + 1], i)
    ensures i > 0 && |Longest(g, choices[i])| <= |Longest(g, choices[j])| ==> FirstDeepest(g, choices[..i + 1], j)
  {
    assert forall k :: 0 <= k < i ==> choices[..i][k] == choices[..i + 1][k];
  }

  /** Of several longest paths the one through the dependency that is named first is taken. */
  lemma {:induction false} LongestTakesFirst(g: Graph, x: Id, k: nat) returns (j: nat)
    requires Acyclic(g) && x in g && 0 < k <= |g[x]|
    ensures FirstDeepest(g, g[x][..k], j) && BestOf(g, x, k) == Longest(g, g[x][j])
    ensures k == |g[x]| ==> Longest(g, x) == Longest(g, g[x][j]) + [x]
  {
    j := k - 1;
    BestOfIsBest(g, x, k);
    LongestIsChain(g, g[x][k - 1]);
    if k > 1 {
      BestOfIsBest(g, x, k - 1);
      if |Longest(g, g[x][k - 1])| <= |BestOf(g, x, k - 1)| {
        j := LongestTakesFirst(g, x, k - 1);
        DeepestNext(g, g[x], k - 1, j);
      }
    }
  }

  class LongestPathFinder {
    const g: Graph
    var memo: map<Id, seq<Id>>

    constructor (g: Graph)
      ensures this.g == g && memo == map[]
    {
      this.g := g;
      memo := map[];
    }

    /** The memo agrees with the unmemoised definition. */
    ghost predicate Valid()
      reads this
    {
      Acyclic(g) && forall x :: x in memo ==> memo[x] == Longest(g, x)
    }

    method LongestPath(node: Id) returns (path: seq<Id>)
      requires Valid()
      modifies this
      ensures Valid() && path == Longest(g, node)
      decreases ReachSet(g, node)
    {
      if node in memo {
        return memo[node];
      }
      if node !in g || g[node] == [] {
        path := [node];
      } else {
        var dependencies, best := g[node], [];
        for k := 0 to |dependencies|
          invariant Valid() && best == BestOf(g, node, k)
        {
          assert HasEdge(g, node, dependencies[k]);
          ReachShrinks(g, node, dependencies[k]);
          var candidate := LongestPath(dependencies[k]);
          if |candidate| > |best| {
            best := candidate;
          }
        }
        path := best + [node];
      }
      memo := memo[node := path];
    }
  }

  /** A longest chain among all those that end in a step of the plan. */
  ghost predicate CriticalPath(steps: seq<StepData>, path: seq<Id>) {
    && Chain(GraphOf(steps), path) && path[|path| - 1] in Ids(steps)
    && forall q :: Chain(GraphOf(steps), q) && q[|q| - 1] in Ids(steps) ==> |q| <= |path|
  }

  /** The longest path to the first step, in plan order, to which one is longest. */
  ghost predicate FirstCritical(steps: seq<StepData>, path: seq<Id>)
    requires Acyclic(GraphOf(steps))
  {
    exists k :: 0 <= k < |steps| && FirstDeepest(GraphOf(steps), Ids(steps), k)
      && path == Longest(GraphOf(steps), Ids(steps)[k])
  }

  method FindCriticalPath(steps: seq<StepData>) returns (bestPath: seq<Id>)
    ensures !Acyclic(GraphOf(steps)) || steps == [] ==> bestPath == []
    ensures Acyclic(GraphOf(steps)) && steps != [] ==>
      CriticalPath(steps, bestPath) && FirstCritical(steps, bestPath)
  {
    var g := GraphOf(steps);
    var cycles := FindCycles(steps);
    if cycles != [] {
      return [];
    }
    var finder := new LongestPathFinder(g);
    bestPath := [];
    ghost var ids, first := Ids(steps), 0;
    for i := 0 to |steps|
      invariant fresh(finder) && finder.g == g && finder.Valid()
      invariant i == 0 ==> bestPath == []
      invariant i > 0 ==> first < i && FirstDeepest(g, ids[..i], first) && bestPath == Longest(g, ids[first])
    {
      var path := finder.LongestPath(steps[i].id);
      LongestIsChain(g, ids[i]);
      DeepestNext(g, ids, i, first);
      if |path| > |bestPath| {
        bestPath, first := path, i;
      }
    }
    assert ids[..|steps|] == ids;
    if steps != [] {
      assert FirstDeepest(g, ids, first);
      BestIsCritical(steps, bestPath);
    }
  }

  lemma {:induction false} BestIsCritical(steps: seq<StepData>, path: seq<Id>)
    requires Acyclic(GraphOf(steps))
    requires FirstCritical(steps, path)
    ensures CriticalPath(steps, path)
  {
    var g, ids := GraphOf(steps), Ids(steps);
    var k: nat :| k < |steps| && FirstDeepest(g, ids, k) && path == Longest(g, ids[k]);
    LongestIsChain(g, ids[k]);
    forall q | Chain(g, q) && q[|q| - 1] in Ids(steps) ensures |q| <= |path| {
      var i := IndexOf(Ids(steps), q[|q| - 1]);
      LongestBounds(g, ids[i], q);
    }
  }
}
