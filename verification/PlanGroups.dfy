/** `_assign_parallel_groups`: steps of equal dependency depth that do not clash share a group. */
module PlanGroups {
  import opened Seqs
  import opened PlanGraph
  import opened PlanCriticalPath
  import opened PlanConflicts
  import opened Pairs
  import Text

  /** The pydantic object: fixed content, and the one attribute the grouping assigns. */
  class Step {
    const data: StepData
    var parallelGroup: Option<string>

    constructor (data: StepData, parallelGroup: Option<string>)
      ensures this.data == data && this.parallelGroup == parallelGroup
    {
      this.data := data;
      this.parallelGroup := parallelGroup;
    }
  }

  function Data(steps: seq<Step>): (r: seq<StepData>)
    ensures |r| == |steps|
    ensures forall i :: 0 <= i < |r| ==> r[i] == steps[i].data
  {
    seq(|steps|, i requires 0 <= i < |steps| => steps[i].data)
  }

  /** Dependency depth is the length of the longest chain, counted in edges. */
  ghost function Depth(g: Graph, x: Id): nat
    requires Acyclic(g)
  {
    LongestIsChain(g, x);
    |Longest(g, x)| - 1
  }

  /** Depth strictly grows along every edge. */
  lemma {:induction false} DepthGrows(g: Graph, x: Id, d: Id)
    requires Acyclic(g) && HasEdge(g, x, d)
    ensures Depth(g, d) < Depth(g, x)
  {
    BestOfIsBest(g, x, |g[x]|);
    var j := IndexOf(g[x], d);
  }

  lemma {:induction false} DepthGrowsAlongWalk(g: Graph, p: seq<Id>)
    requires Acyclic(g) && Walk(g, p)
    ensures Depth(g, p[0]) >= Depth(g, p[|p| - 1]) + |p| - 1
    decreases |p|
  {
    if |p| >= 2 {
      assert HasEdge(g, p[0], p[1]);
      DepthGrows(g, p[0], p[1]);
      WalkSlice(g, p, 1, |p|);
      DepthGrowsAlongWalk(g, p[1..|p|]);
    }
  }

  class DepthFinder {
    const g: Graph
    var stepDepth: map<Id, nat>

    constructor (g: Graph)
      requires Acyclic(g)
      ensures this.g == g && Valid()
    {
      this.g := g;
      stepDepth := map[];
    }

    ghost predicate Valid()
      reads this
    {
      Acyclic(g) && forall x :: x in stepDepth ==> stepDepth[x] == Depth(g, x)
    }

    /** `compute_depth`: 0 without dependencies, otherwise one more than the deepest dependency. */
    method ComputeDepth(id: Id) returns (depth: nat)
      requires Valid()
      modifies this
      ensures Valid() && depth == Depth(g, id)
      ensures id in stepDepth && old(stepDepth.Keys) <= stepDepth.Keys
      decreases ReachSet(g, id)
    {
      if id in stepDepth {
        return stepDepth[id];
      }
      if id !in g || g[id] == [] {
        depth := 0;
      } else {
        var dependencies, maxDepth := g[id], 0;
        for k := 0 to |dependencies|
          invariant Valid() && old(stepDepth.Keys) <= stepDepth.Keys
          invariant k > 0 ==> maxDepth + 1 == |BestOf(g, id, k)|
          invariant k == 0 ==> maxDepth == 0
        {
          assert HasEdge(g, id, dependencies[k]);
          ReachShrinks(g, id, dependencies[k]);
          var d := ComputeDepth(dependencies[k]);
          if d > maxDepth {
            maxDepth := d;
          }
        }
        depth := maxDepth + 1;
      }
      stepDepth := stepDepth[id := depth];
    }
  }

  /** The parallel-safe steps of one depth, in plan order. */
  ghost function Level(g: Graph, steps: seq<StepData>, depth: nat): seq<StepData>
    requires Acyclic(g)
  {
    if steps == [] then [] else
      var front, last := steps[..|steps| - 1], steps[|steps| - 1];
      Level(g, front, depth) + if last.parallelSafe && Depth(g, last.id) == depth then [last] else []
  }

  lemma {:induction false} LevelMembers(g: Graph, steps: seq<StepData>, depth: nat)
    requires Acyclic(g)
    ensures forall s :: s in Level(g, steps, depth) <==> s in steps && s.parallelSafe && Depth(g, s.id) == depth
  {
    if steps != [] {
      var front, last := steps[..|steps| - 1], steps[|steps| - 1];
      assert steps == front + [last];
      LevelMembers(g, front, depth);
    }
  }

  function GroupName(depth: nat): string {
    "parallel_group_" + Text.NatText(depth)
  }

  lemma GroupNameInjective(c: nat, d: nat)
    requires GroupName(c) == GroupName(d)
    ensures c == d
  {
    var prefix := "parallel_group_";
    assert Text.NatText(c) == GroupName(c)[|prefix|..] && Text.NatText(d) == GroupName(d)[|prefix|..];
    Text.NatTextInjective(c, d);
  }

  /** The level gets a name: it has two steps or more and no two of them clash. */
  ghost predicate Grouped(g: Graph, steps: seq<StepData>, depth: nat)
    requires Acyclic(g)
  {
    |Level(g, steps, depth)| > 1 && ClashFree(Level(g, steps, depth))
  }

  /** The attribute of a step after grouping. */
  ghost function GroupOf(g: Graph, steps: seq<StepData>, s: StepData, before: Option<string>): Option<string>
    requires Acyclic(g)
  {
    if s.parallelSafe && Grouped(g, steps, Depth(g, s.id)) then Some(GroupName(Depth(g, s.id))) else before
  }

  method GroupConflictFree(group: seq<Step>) returns (conflictFree: bool)
    ensures conflictFree <==> ClashFree(Data(group))
  {
    conflictFree := true;
    var i := 0;
    while i < |group| && conflictFree
      invariant 0 <= i <= |group|
      invariant conflictFree ==> forall a, b :: 0 <= a < i && a < b < |group| ==> !Clash(Data(group)[a], Data(group)[b])
      invariant !conflictFree ==> !ClashFree(Data(group))
    {
      var j := i + 1;
      while j < |group| && conflictFree
        invariant i < j <= |group|
        invariant conflictFree ==> forall b :: i < b < j ==> !Clash(Data(group)[i], Data(group)[b])
        invariant !conflictFree ==> !ClashFree(Data(group))
      {
        if Clash(group[i].data, group[j].data) {
          assert Clash(Data(group)[i], Data(group)[j]);
          conflictFree := false;
        }
        j := j + 1;
      }
      i := i + 1;
    }
  }

  function AtDepth(groups: map<nat, seq<Step>>, depth: nat): seq<Step> {
    if depth in groups then groups[depth] else []
  }

  ghost predicate OnLevel(g: Graph, s: StepData, depth: nat)
    requires Acyclic(g)
  {
    s.parallelSafe && Depth(g, s.id) == depth
  }

  /** The dict holds exactly the parallel-safe steps, by depth, each list in plan order. */
  ghost predicate Filed(g: Graph, steps: seq<Step>, groups: map<nat, seq<Step>>)
    requires Acyclic(g)
  {
    && (forall d :: Data(AtDepth(groups, d)) == Level(g, Data(steps), d))
    && (forall d, s :: s in AtDepth(groups, d) ==> s in steps && OnLevel(g, s.data, d))
    && (forall s :: s in steps && s.data.parallelSafe ==> s in AtDepth(groups, Depth(g, s.data.id)))
  }

  lemma {:induction false} LevelOfMore(g: Graph, front: seq<Step>, step: Step, d: nat)
    requires Acyclic(g)
    ensures Level(g, Data(front + [step]), d)
         == if OnLevel(g, step.data, d) then Level(g, Data(front), d) + [step.data] else Level(g, Data(front), d)
  {
    assert Data(front + [step]) == Data(front) + [step.data];
    TakeAll(Data(front), step.data);
    NilLeft(Level(g, Data(front), d));
  }

  lemma DataOfMore(front: seq<Step>, step: Step)
    ensures Data(front + [step]) == Data(front) + [step.data]
  {
  }

  function Appended(groups: map<nat, seq<Step>>, depth: nat, step: Step): (r: map<nat, seq<Step>>)
    ensures forall d :: AtDepth(r, d) == if d == depth then AtDepth(groups, d) + [step] else AtDepth(groups, d)
  {
    groups[depth := AtDepth(groups, depth) + [step]]
  }

  /** A parallel-safe step joins the list of its depth; any other step changes nothing. */
  function FiledIn(groups: map<nat, seq<Step>>, depth: nat, step: Step): map<nat, seq<Step>> {
    if step.data.parallelSafe then Appended(groups, depth, step) else groups
  }

  lemma {:induction false} FiledLevels(g: Graph, front: seq<Step>, step: Step, groups: map<nat, seq<Step>>, d: nat)
    requires Acyclic(g) && Data(AtDepth(groups, d)) == Level(g, Data(front), d)
    ensures Data(AtDepth(FiledIn(groups, Depth(g, step.data.id), step), d)) == Level(g, Data(front + [step]), d)
  {
    LevelOfMore(g, front, step, d);
    DataOfMore(AtDepth(groups, d), step);
  }

  lemma {:induction false} FiledMembers(g: Graph, front: seq<Step>, step: Step, groups: map<nat, seq<Step>>, d: nat,
                                        s: Step)
    requires Acyclic(g)
    requires s in AtDepth(groups, d) ==> s in front && OnLevel(g, s.data, d)
    requires s in front && OnLevel(g, s.data, d) ==> s in AtDepth(groups, d)
    ensures s in AtDepth(FiledIn(groups, Depth(g, step.data.id), step), d)
      <==> s in front + [step] && OnLevel(g, s.data, d)
  {
    var depth := Depth(g, step.data.id);
    InConcat(s, front, [step]);
    if step.data.parallelSafe && d == depth {
      InConcat(s, AtDepth(groups, d), [step]);
    }
  }

  lemma FiledAt(g: Graph, steps: seq<Step>, i: nat, groups: map<nat, seq<Step>>)
    requires Acyclic(g) && i < |steps| && Filed(g, steps[..i], groups)
    ensures Filed(g, steps[..i + 1], FiledIn(groups, Depth(g, steps[i].data.id), steps[i]))
  {
    var front, step := steps[..i], steps[i];
    var after := FiledIn(groups, Depth(g, step.data.id), step);
    TakeMore(steps, i);
    forall d ensures Data(AtDepth(after, d)) == Level(g, Data(front + [step]), d) {
      FiledLevels(g, front, step, groups, d);
    }
    forall d, s | s in AtDepth(after, d) ensures s in front + [step] && OnLevel(g, s.data, d) {
      FiledMembers(g, front, step, groups, d, s);
    }
    forall s | s in front + [step] && s.data.parallelSafe ensures s in AtDepth(after, Depth(g, s.data.id)) {
      FiledMembers(g, front, step, groups, Depth(g, s.data.id), s);
    }
  }

  /** Parallel-safe steps by depth, each list in plan order. */
  method DepthGroups(steps: seq<Step>, g: Graph) returns (groups: map<nat, seq<Step>>)
    requires Acyclic(g)
    ensures Filed(g, steps, groups)
  {
    var finder := new DepthFinder(g);
    groups := map[];
    for i := 0 to |steps|
      invariant fresh(finder) && finder.g == g && finder.Valid()
      invariant Filed(g, steps[..i], groups)
    {
      var depth := finder.ComputeDepth(steps[i].data.id);
      FiledAt(g, steps, i, groups);
      if steps[i].data.parallelSafe {
        groups := Appended(groups, depth, steps[i]);
      }
    }
    assert steps[..|steps|] == steps;
  }

  method SettleGroup(group: seq<Step>, name: string)
    modifies group
    ensures forall s :: s in group ==>
      s.parallelGroup == if |group| > 1 && ClashFree(Data(group)) then Some(name) else old(s.parallelGroup)
  {
    if |group| > 1 {
      var conflictFree := GroupConflictFree(group);
      if conflictFree {
        for i := 0 to |group|
          invariant forall k :: 0 <= k < i ==> group[k].parallelGroup == Some(name)
        {
          group[i].parallelGroup := Some(name);
        }
      }
    }
  }

  /** Every step ends with the group its level earned, or keeps the one it had. Requires what the
      recursion of `compute_depth` needs to return at all: no cycle among ids. */
  method AssignParallelGroups(steps: seq<Step>)
    requires Acyclic(GraphOf(Data(steps)))
    modifies steps
    ensures forall s :: s in steps ==>
      s.parallelGroup == GroupOf(GraphOf(Data(steps)), Data(steps), s.data, old(s.parallelGroup))
  {
    var g := GraphOf(Data(steps));
    var groups := DepthGroups(steps, g);
    var pending := groups.Keys;
    while pending != {}
      invariant pending <= groups.Keys
      invariant forall s :: s in steps && Depth(g, s.data.id) in pending ==> s.parallelGroup == old(s.parallelGroup)
      invariant forall s :: s in steps && Depth(g, s.data.id) !in pending ==>
        s.parallelGroup == GroupOf(g, Data(steps), s.data, old(s.parallelGroup))
      decreases pending
    {
      var depth :| depth in pending;
      pending := pending - {depth};
      var group := groups[depth];
      assert group == AtDepth(groups, depth);
      SettleGroup(group, GroupName(depth));
    }
  }

  // ----- what a shared group means -----

  /** The level of a grouped step, as the group's members. */
  ghost predicate SameGroup(g: Graph, steps: seq<StepData>, s: StepData, t: StepData)
    requires Acyclic(g)
  {
    GroupOf(g, steps, s, None).Some? && GroupOf(g, steps, s, None) == GroupOf(g, steps, t, None)
  }

  /** No two steps of a group depend on each other, not even through other steps. */
  lemma {:induction false} GroupIsAntichain(steps: seq<StepData>, s: StepData, t: StepData)
    requires Acyclic(GraphOf(steps)) && s in steps && t in steps && s.id != t.id
    requires SameGroup(GraphOf(steps), steps, s, t)
    ensures !Reaches(GraphOf(steps), s.id, t.id)
  {
    var g := GraphOf(steps);
    GroupNameInjective(Depth(g, s.id), Depth(g, t.id));
    if Reaches(g, s.id, t.id) {
      var p :| WalkBetween(g, p, s.id, t.id);
      DepthGrowsAlongWalk(g, p);
    }
  }

  /** The steps that carry a group's name are exactly the level it was made from. */
  lemma {:induction false} GroupIsLevel(steps: seq<StepData>, depth: nat, s: StepData)
    requires Acyclic(GraphOf(steps)) && s in steps && Grouped(GraphOf(steps), steps, depth)
    ensures GroupOf(GraphOf(steps), steps, s, None) == Some(GroupName(depth))
      <==> s in Level(GraphOf(steps), steps, depth)
  {
    var g := GraphOf(steps);
    LevelMembers(g, steps, depth);
    if GroupOf(g, steps, s, None) == Some(GroupName(depth)) {
      GroupNameInjective(Depth(g, s.id), depth);
    }
  }

  /** All orders of a group's steps give the same final store. */
  lemma {:induction false} GroupRunsInAnyOrder<V(!new)>(steps: seq<StepData>, depth: nat, order: seq<StepData>,
      run: StepData -> (Store<V> -> Store<V>), st: Store<V>)
    requires Acyclic(GraphOf(steps)) && Grouped(GraphOf(steps), steps, depth)
    requires multiset(order) == multiset(Level(GraphOf(steps), steps, depth))
    requires forall s :: s in steps ==> Confined(s, run(s))
    ensures RunAll(run, order, st) == RunAll(run, Level(GraphOf(steps), steps, depth), st)
  {
    var level := Level(GraphOf(steps), steps, depth);
    LevelMembers(GraphOf(steps), steps, depth);
    AnyOrderSameStore(run, level, order, st);
  }
}
