/** `_topological_sort`: Kahn's algorithm over in-degree counters. */
module PlanTopology {
  import opened Seqs
  import opened PlanGraph
  import opened PlanQueue

  /** In-degree as the code counts it: one for each occurrence of an in-plan id. */
  function Occurrences(g: Graph, deps: seq<Id>): nat {
    |set i | 0 <= i < |deps| && deps[i] in g|
  }

  lemma OccurrencesSnoc(g: Graph, front: seq<Id>, last: Id)
    ensures Occurrences(g, front + [last]) == Occurrences(g, front) + if last in g then 1 else 0
  {
    var deps := front + [last];
    var before, after := set i | 0 <= i < |front| && front[i] in g, set i | 0 <= i < |deps| && deps[i] in g;
    assert after == before + if last in g then {|front|} else {};
  }

  function Settled(deps: seq<Id>, done: set<Id>): set<Id> {
    set d | d in deps && d in done
  }

  /** No step of the plan occurs twice in the list; ids outside the plan may repeat. */
  ghost predicate RepeatFree(g: Graph, deps: seq<Id>) {
    forall i, j :: 0 <= i < j < |deps| && deps[i] == deps[j] ==> deps[i] !in g
  }

  /** The counter decremented once per settled dependency reaches zero exactly when every in-plan
      dependency is settled and none of them was counted twice. */
  lemma {:induction false} CounterReachesZero(g: Graph, deps: seq<Id>, done: set<Id>)
    requires done <= g.Keys
    ensures |Settled(deps, done)| <= Occurrences(g, deps)
    ensures |Settled(deps, done)| == Occurrences(g, deps) <==> RepeatFree(g, deps) && Satisfied(g, deps, done)
  {
    if deps != [] {
      var front, last := deps[..|deps| - 1], deps[|deps| - 1];
      assert deps == front + [last];
      CounterReachesZero(g, front, done);
      RepeatFreeSnoc(g, front, last);
      OccurrencesSnoc(g, front, last);
      SettledSnoc(front, last, done);
      SatisfiedSnoc(g, front, last, done);
    }
  }

  lemma SettledSnoc(front: seq<Id>, last: Id, done: set<Id>)
    ensures |Settled(front + [last], done)| == |Settled(front, done)| + if last in done && last !in front then 1 else 0
  {
    assert Settled(front + [last], done) == Settled(front, done) + if last in done then {last} else {};
  }

  lemma SatisfiedSnoc(g: Graph, front: seq<Id>, last: Id, done: set<Id>)
    ensures Satisfied(g, front + [last], done) <==> Satisfied(g, front, done) && (last in g ==> last in done)
  {
    assert last in front + [last];
    assert forall d :: d in front ==> d in front + [last];
  }

  lemma RepeatFreeSnoc(g: Graph, front: seq<Id>, last: Id)
    ensures RepeatFree(g, front + [last]) <==> RepeatFree(g, front) && (last in g ==> last !in front)
  {
    var deps := front + [last];
    if last in g && last in front {
      var i := IndexOf(front, last);
      assert deps[i] == deps[|front|];
    }
    if RepeatFree(g, deps) {
      forall i, j | 0 <= i < j < |front| && front[i] == front[j] ensures front[i] !in g {
        assert deps[i] == deps[j];
      }
    }
  }

  /** What is left of the counter of `x` once the ids in `done` were produced. */
  function Outstanding(g: Graph, x: Id, done: set<Id>): int
    requires x in g
  {
    Occurrences(g, g[x]) - |Settled(g[x], done)|
  }

  lemma ProducingLowersCounter(g: Graph, x: Id, done: set<Id>, node: Id)
    requires x in g && node !in done
    ensures Outstanding(g, x, done + {node}) == Outstanding(g, x, done) - if node in g[x] then 1 else 0
  {
    var before, after := Settled(g[x], done), Settled(g[x], done + {node});
    assert after == before + if node in g[x] then {node} else {};
  }

  /** A step Kahn's algorithm can never produce, and every step that depends on one. */
  ghost predicate Blocked(g: Graph, z: Id) {
    z in g && (OnCycle(g, z) || !RepeatFree(g, g[z]))
  }

  ghost predicate Stuck(g: Graph, x: Id) {
    exists z :: Blocked(g, z) && Reaches(g, x, z)
  }

  /** The counters that are zero belong to the listed ids, which are listed once. */
  ghost predicate Listed(g: Graph, inDegree: map<Id, int>, listed: seq<Id>) {
    && inDegree.Keys == g.Keys
    && Distinct(listed)
    && forall x :: x in listed <==> x in g && inDegree[x] == 0
  }

  ghost predicate Counters(g: Graph, inDegree: map<Id, int>, done: set<Id>)
    requires inDegree.Keys == g.Keys
  {
    forall x :: x in g ==> inDegree[x] == Outstanding(g, x, done)
  }

  /** The state of the main loop between two pops. */
  ghost predicate KahnState(g: Graph, inDegree: map<Id, int>, queue: seq<Id>, result: seq<Id>) {
    && Listed(g, inDegree, result + queue)
    && Counters(g, inDegree, SetOf(result))
  }

  function CounterMap(g: Graph, done: set<Id>): map<Id, int> {
    map x | x in g :: Outstanding(g, x, done)
  }

  /** Inside the inner loop: the first j ids have the counters of `after`, the others those of `before`. */
  ghost predicate Relaxing(ids: seq<Id>, j: nat, before: map<Id, int>, after: map<Id, int>,
                           inDegree: map<Id, int>, listed: seq<Id>)
  {
    && inDegree.Keys == before.Keys == after.Keys
    && (forall k :: 0 <= k < |ids| ==> ids[k] in before)
    && (forall k :: 0 <= k < |ids| ==> inDegree[ids[k]] == if k < j then after[ids[k]] else before[ids[k]])
    && Distinct(listed)
    && forall x :: x in listed <==> x in inDegree && inDegree[x] == 0
  }

  lemma {:induction false} RelaxStep(ids: seq<Id>, j: nat, before: map<Id, int>, after: map<Id, int>,
                  inDegree: map<Id, int>, order: seq<Id>, queue: seq<Id>)
    requires Distinct(ids) && j < |ids| && Relaxing(ids, j, before, after, inDegree, order + queue)
    requires before[ids[j]] > 0 && after[ids[j]] == before[ids[j]] - 1
    ensures
      var lowered := inDegree[ids[j] := inDegree[ids[j]] - 1];
      var longer := if lowered[ids[j]] == 0 then queue + [ids[j]] else queue;
      Relaxing(ids, j + 1, before, after, lowered, order + longer)
  {
    var x := ids[j];
    assert inDegree[x] == before[x] && x !in order + queue;
    assert order + (queue + [x]) == order + queue + [x];
  }

  lemma RelaxEnds(g: Graph, ids: seq<Id>, result: seq<Id>, node: Id, inDegree: map<Id, int>, queue: seq<Id>)
    requires forall x :: x in g ==> x in ids
    requires Relaxing(ids, |ids|, CounterMap(g, SetOf(result)), CounterMap(g, SetOf(result) + {node}), inDegree,
                      result + [node] + queue)
    ensures KahnState(g, inDegree, queue, result + [node])
  {
    assert SetOf(result + [node]) == SetOf(result) + {node};
    forall x | x in g ensures inDegree[x] == Outstanding(g, x, SetOf(result) + {node}) {
      var k := IndexOf(ids, x);
    }
  }

  lemma {:induction false} CounterMapsStep(g: Graph, done: set<Id>, node: Id)
    requires node in g && node !in done && done <= g.Keys
    ensures forall x :: x in g ==>
      && (node in g[x] ==> CounterMap(g, done)[x] > 0)
      && CounterMap(g, done + {node})[x] == CounterMap(g, done)[x] - if node in g[x] then 1 else 0
  {
    forall x | x in g ensures
      && (node in g[x] ==> Outstanding(g, x, done) > 0)
      && Outstanding(g, x, done + {node}) == Outstanding(g, x, done) - if node in g[x] then 1 else 0
    {
      ProducingLowersCounter(g, x, done, node);
      CounterReachesZero(g, g[x], done);
    }
  }

  lemma ListedOnce(result: seq<Id>, node: Id, queue: seq<Id>)
    requires Distinct(result + ([node] + queue))
    ensures result + [node] + queue == result + ([node] + queue)
    ensures node !in result && node in result + ([node] + queue)
    ensures forall x :: x in result ==> x in result + ([node] + queue)
  {
    var listed := result + ([node] + queue);
    assert listed[|result|] == node;
    forall x | x in result ensures x in listed && x != node {
      assert listed[IndexOf(result, x)] == x;
    }
  }

  lemma PoppedIsReady(g: Graph, inDegree: map<Id, int>, queue: seq<Id>, result: seq<Id>)
    requires KahnState(g, inDegree, queue, result) && Ordered(g, result) && queue != []
    ensures Ordered(g, result + [queue[0]])
  {
    var node := queue[0];
    assert (result + queue)[|result|] == node;
    assert forall x :: x in result ==> x in result + queue;
    CounterReachesZero(g, g[node], SetOf(result));
    var order := result + [node];
    forall i, y | 0 <= i < |order| && HasEdge(g, order[i], y) && y in g ensures y in order[..i] {
      if i < |result| {
        assert order[..i] == result[..i];
      } else {
        assert order[..i] == result;
      }
    }
  }

  method InDegrees(steps: seq<StepData>, ghost g: Graph) returns (inDegree: map<Id, int>)
    requires Indexes(g, steps)
    ensures inDegree.Keys == g.Keys && Counters(g, inDegree, {})
  {
    var ids := Ids(steps);
    inDegree := map id | id in ids :: 0;
    for i := 0 to |steps|
      invariant inDegree.Keys == g.Keys
      invariant forall k :: 0 <= k < i ==> inDegree[ids[k]] == Occurrences(g, g[ids[k]])
      invariant forall k :: i <= k < |ids| ==> inDegree[ids[k]] == 0
    {
      assert forall k :: 0 <= k < i ==> ids[k] != ids[i];
      assert forall k :: i < k < |ids| ==> ids[k] != ids[i];
      inDegree := CountInPlan(g, inDegree, ids[i], steps[i].dependencies);
    }
    forall x | x in g ensures inDegree[x] == Outstanding(g, x, {}) {
      var k := IndexOf(ids, x);
      assert Settled(g[x], {}) == {};
    }
  }

  /** The counter of one step grows by the occurrences of in-plan ids among its dependencies. */
  method CountInPlan(ghost g: Graph, inDegree0: map<Id, int>, id: Id, deps: seq<Id>) returns (inDegree: map<Id, int>)
    requires inDegree0.Keys == g.Keys && id in inDegree0
    ensures inDegree == inDegree0[id := inDegree0[id] + Occurrences(g, deps)]
  {
    inDegree := inDegree0;
    for d := 0 to |deps|
      invariant inDegree == inDegree0[id := inDegree0[id] + Occurrences(g, deps[..d])]
    {
      OccurrencesSnoc(g, deps[..d], deps[d]);
      TakeMore(deps, d);
      if deps[d] in inDegree {
        inDegree := inDegree[id := inDegree[id] + 1];
      }
    }
    assert deps[..|deps|] == deps;
  }

  /** The initial queue: the ids whose counter is zero, in plan order. */
  method Roots(ids: seq<Id>, inDegree: map<Id, int>) returns (queue: seq<Id>)
    requires Distinct(ids) && SetOf(ids) == inDegree.Keys
    ensures Distinct(queue) && PlanOrdered(ids, queue)
    ensures forall x :: x in queue <==> x in inDegree && inDegree[x] == 0
  {
    queue := [];
    for i := 0 to |ids|
      invariant Distinct(queue) && PlanOrdered(ids, queue)
      invariant forall x :: x in queue <==> x in ids[..i] && inDegree[x] == 0
    {
      assert ids[i] in inDegree.Keys;
      TakeMore(ids, i);
      if inDegree[ids[i]] == 0 {
        PlanOrderedSnoc(ids, i, queue);
        queue := queue + [ids[i]];
      }
    }
    assert ids[..|ids|] == ids;
  }

  /** One pass of the main loop's body after `popleft`. */
  method Relax(steps: seq<StepData>, ghost g: Graph, node: Id, inDegree0: map<Id, int>, queue0: seq<Id>,
               ghost result: seq<Id>)
    returns (inDegree: map<Id, int>, queue: seq<Id>)
    requires Indexes(g, steps)
    requires KahnState(g, inDegree0, [node] + queue0, result)
    requires FirstInFirstOut(g, Ids(steps), result, result + ([node] + queue0))
    ensures KahnState(g, inDegree, queue, result + [node])
    ensures FirstInFirstOut(g, Ids(steps), result + [node], result + [node] + queue)
  {
    ghost var done := SetOf(result);
    ghost var before, after := CounterMap(g, done), CounterMap(g, done + {node});
    RelaxBegins(steps, g, node, inDegree0, queue0, result);
    DependentsLower(steps, g, done, node);
    ghost var added;
    inDegree, queue, added := LowerDependents(steps, node, inDegree0, queue0, before, after, result + [node]);
    RelaxEnds(g, Ids(steps), result, node, inDegree, queue);
    AddedInOrder(g, Ids(steps), inDegree0, queue0, inDegree, result, node, added);
  }

  /** The effect of producing `node` on the counter of one step. */
  ghost predicate Lowers(step: StepData, node: Id, before: map<Id, int>, after: map<Id, int>) {
    && step.id in before && step.id in after
    && (node in step.dependencies ==> before[step.id] > 0)
    && after[step.id] == before[step.id] - if node in step.dependencies then 1 else 0
  }

  /** The inner loop: lower the counter of every dependent of `node`, queue those that reach zero. */
  method LowerDependents(steps: seq<StepData>, node: Id, inDegree0: map<Id, int>, queue0: seq<Id>,
                         ghost before: map<Id, int>, ghost after: map<Id, int>, ghost order: seq<Id>)
    returns (inDegree: map<Id, int>, queue: seq<Id>, ghost added: seq<Id>)
    requires UniqueIds(steps) && forall i :: 0 <= i < |steps| ==> Lowers(steps[i], node, before, after)
    requires Relaxing(Ids(steps), 0, before, after, inDegree0, order + queue0)
    ensures Relaxing(Ids(steps), |steps|, before, after, inDegree, order + queue)
    ensures queue == queue0 + added && PlanOrdered(Ids(steps), added)
  {
    var ids := Ids(steps);
    inDegree, queue, added := inDegree0, queue0, [];
    for j := 0 to |steps|
      invariant Relaxing(ids, j, before, after, inDegree, order + queue)
      invariant queue == queue0 + added && PlanOrdered(ids, added) && forall x :: x in added ==> x in ids[..j]
    {
      assert Lowers(steps[j], node, before, after);
      TakeMore(ids, j);
      if node in steps[j].dependencies {
        RelaxStep(ids, j, before, after, inDegree, order, queue);
        inDegree := inDegree[ids[j] := inDegree[ids[j]] - 1];
        if inDegree[ids[j]] == 0 {
          PlanOrderedSnoc(ids, j, added);
          Associate(queue0, added, [ids[j]]);
          queue, added := queue + [ids[j]], added + [ids[j]];
        }
      }
    }
  }

  /** What is listed is ready, and what is not listed but names nothing twice is not. */
  lemma ListedIsReady(g: Graph, inDegree: map<Id, int>, queue: seq<Id>, result: seq<Id>)
    requires KahnState(g, inDegree, queue, result) && SetOf(result) <= g.Keys
    ensures AllReady(g, result, result + queue)
    ensures forall x :: x in g && x !in result + queue && RepeatFree(g, g[x]) ==> !Ready(g, result, x)
    ensures forall x :: x in result + queue ==> RepeatFree(g, g[x])
  {
    forall x | x in g ensures inDegree[x] == 0 <==> RepeatFree(g, g[x]) && Satisfied(g, g[x], SetOf(result)) {
      CounterReachesZero(g, g[x], SetOf(result));
    }
  }

  lemma {:induction false} DistinctParts<T>(a: seq<T>, b: seq<T>)
    requires Distinct(a + b)
    ensures forall x :: x in b ==> x !in a
  {
    forall x | x in b ensures x !in a {
      assert (a + b)[|a| + IndexOf(b, x)] == x;
      assert forall i :: 0 <= i < |a| ==> (a + b)[i] == a[i];
    }
  }

  lemma AddedInOrder(g: Graph, ids: seq<Id>, inDegree0: map<Id, int>, queue0: seq<Id>, inDegree: map<Id, int>,
                     result: seq<Id>, node: Id, added: seq<Id>)
    requires KahnState(g, inDegree0, [node] + queue0, result)
    requires KahnState(g, inDegree, queue0 + added, result + [node])
    requires FirstInFirstOut(g, ids, result, result + ([node] + queue0)) && PlanOrdered(ids, added)
    ensures FirstInFirstOut(g, ids, result + [node], result + [node] + (queue0 + added))
  {
    var listed, all := result + ([node] + queue0), result + [node] + (queue0 + added);
    assert all == listed + added;
    assert SetOf(result) <= g.Keys && SetOf(result + [node]) <= g.Keys by {
      assert forall x :: x in result ==> x in listed;
      assert forall x :: x in result + [node] ==> x in all;
    }
    ListedIsReady(g, inDegree0, [node] + queue0, result);
    ListedIsReady(g, inDegree, queue0 + added, result + [node]);
    assert forall x :: x in added ==> x in all;
    DistinctParts(listed, added);
    QueueStep(g, ids, result, node, listed, added);
  }

  lemma RelaxBegins(steps: seq<StepData>, g: Graph, node: Id, inDegree: map<Id, int>,
                                       queue: seq<Id>, result: seq<Id>)
    requires Indexes(g, steps) && KahnState(g, inDegree, [node] + queue, result)
    ensures node in g && node !in result && SetOf(result) <= g.Keys
    ensures
      Relaxing(Ids(steps), 0, CounterMap(g, SetOf(result)), CounterMap(g, SetOf(result) + {node}), inDegree,
               result + [node] + queue)
  {
    ListedOnce(result, node, queue);
    assert forall k :: 0 <= k < |steps| ==> Ids(steps)[k] in g;
  }

  lemma {:induction false} DependentsLower(steps: seq<StepData>, g: Graph, done: set<Id>, node: Id)
    requires Indexes(g, steps) && node in g && node !in done && done <= g.Keys
    ensures forall i :: 0 <= i < |steps| ==>
      Lowers(steps[i], node, CounterMap(g, done), CounterMap(g, done + {node}))
  {
    CounterMapsStep(g, done, node);
  }

  /** The ids the queue loop left out, in plan order. */
  function Remaining(ids: seq<Id>, done: seq<Id>): (r: seq<Id>)
    ensures forall x :: x in r <==> x in ids && x !in done
    ensures Distinct(ids) ==> Distinct(r)
  {
    if ids == [] then [] else
      var front, last := ids[..|ids| - 1], ids[|ids| - 1];
      assert ids == front + [last];
      Remaining(front, done) + if last in done then [] else [last]
  }

  /** Kahn's loop alone. */
  method ProduceReady(steps: seq<StepData>, ghost g: Graph) returns (result: seq<Id>)
    requires Indexes(g, steps)
    ensures Distinct(result) && Ordered(g, result)
    ensures forall x :: x in result <==> x in g && !Stuck(g, x)
    ensures FirstInFirstOut(g, Ids(steps), result, result)
  {
    var ids := Ids(steps);
    var inDegree := InDegrees(steps, g);
    assert SetOf(ids) == inDegree.Keys;
    var queue := Roots(ids, inDegree);
    result := [];
    InitialState(g, inDegree, queue);
    QueueStart(g, ids, queue);
    assert [] + queue == queue;
    while queue != []
      invariant KahnState(g, inDegree, queue, result) && Ordered(g, result)
      invariant FirstInFirstOut(g, ids, result, result + queue)
      invariant |result| <= |steps|
      decreases |steps| - |result|
    {
      var node, rest := queue[0], queue[1..];
      assert queue == [node] + rest;
      PoppedIsReady(g, inDegree, queue, result);
      inDegree, queue := Relax(steps, g, node, inDegree, rest, result);
      result := result + [node];
      ProducedBound(ids, result, queue);
    }
    assert result + queue == result;
    ProducedAreNotStuck(g, inDegree, result);
  }

  /** A permutation of the ids. The first `produced` ids are exactly the steps that are not stuck, each after
      its in-plan dependencies, first in, first out; the others follow in plan order. */
  ghost predicate KahnResult(steps: seq<StepData>, result: seq<Id>, produced: nat) {
    var g := GraphOf(steps);
    && multiset(result) == multiset(Ids(steps)) && produced <= |result|
    && Ordered(g, result[..produced])
    && (forall x :: x in result[..produced] <==> x in g && !Stuck(g, x))
    && FirstInFirstOut(g, Ids(steps), result[..produced], result[..produced])
    && result[produced..] == Remaining(Ids(steps), result[..produced])
  }

  method TopologicalSort(steps: seq<StepData>) returns (result: seq<Id>, ghost produced: nat)
    requires UniqueIds(steps)
    ensures KahnResult(steps, result, produced)
    ensures multiset(result) == multiset(Ids(steps))
    ensures Ordered(GraphOf(steps), result) <==> StuckListedInOrder(steps)
  {
    var ids := Ids(steps);
    GraphIndexes(steps);
    result := ProduceReady(steps, GraphOf(steps));
    produced := |result|;
    ghost var prefix := result;
    CompletedIsPermutation(ids, prefix);
    if |result| < |steps| {
      result := result + Remaining(ids, result);
    } else {
      NothingRemains(ids, prefix);
      assert prefix + [] == prefix;
    }
    assert result[..produced] == prefix && result[produced..] == Remaining(ids, prefix);
    assert result == prefix + Remaining(ids, prefix);
    OrderRespectsDependenciesIff(steps, result, produced);
  }

  lemma {:induction false} InitialState(g: Graph, inDegree: map<Id, int>, queue: seq<Id>)
    requires inDegree.Keys == g.Keys && Counters(g, inDegree, {})
    requires Distinct(queue) && forall x :: x in queue <==> x in inDegree && inDegree[x] == 0
    ensures KahnState(g, inDegree, queue, [])
  {
    assert [] + queue == queue;
    assert SetOf<Id>([]) == {};
  }

  lemma ProducedBound(ids: seq<Id>, result: seq<Id>, queue: seq<Id>)
    requires Distinct(result + queue) && forall x :: x in result + queue ==> x in ids
    ensures |result| <= |ids|
  {
    DistinctSize(result + queue);
    SetOfSize(ids);
    SubsetSize(SetOf(result + queue), SetOf(ids));
  }

  lemma {:induction false} NothingRemains(ids: seq<Id>, result: seq<Id>)
    requires Distinct(ids) && Distinct(result) && (forall x :: x in result ==> x in ids) && |result| >= |ids|
    ensures Remaining(ids, result) == []
  {
    assert SetOf(result) <= SetOf(ids);
    DistinctSize(ids);
    DistinctSize(result);
    if SetOf(result) != SetOf(ids) {
      SubsetSize(SetOf(result), SetOf(ids));
    }
    var r := Remaining(ids, result);
    assert forall x :: x in ids ==> x in SetOf(result);
    if r != [] {
      HasElement(r);
    }
  }

  lemma {:induction false} CompletedIsPermutation(ids: seq<Id>, prefix: seq<Id>)
    requires Distinct(ids) && Distinct(prefix) && forall x :: x in prefix ==> x in ids
    ensures multiset(prefix + Remaining(ids, prefix)) == multiset(ids)
  {
    var rest := Remaining(ids, prefix);
    forall x ensures x in prefix + rest <==> x in ids {
      assert x in prefix + rest <==> x in prefix || x in rest;
    }
    forall i, j | 0 <= i < j < |prefix + rest| ensures (prefix + rest)[i] != (prefix + rest)[j] {
      if j >= |prefix| {
        assert (prefix + rest)[j] in rest;
        if i >= |prefix| {
          assert rest[i - |prefix|] != rest[j - |prefix|];
        } else {
          assert (prefix + rest)[i] in prefix;
        }
      }
    }
    assert SetOf(prefix + rest) == SetOf(ids);
    SameElementsPermute(prefix + rest, ids);
  }

  lemma ProducedAreNotStuck(g: Graph, inDegree: map<Id, int>, result: seq<Id>)
    requires KahnState(g, inDegree, [], result) && Ordered(g, result)
    ensures forall x :: x in result <==> x in g && !Stuck(g, x)
  {
    assert result + [] == result;
    var done := SetOf(result);
    forall x | x in g
      ensures x in done <==> RepeatFree(g, g[x]) && Satisfied(g, g[x], done)
    {
      CounterReachesZero(g, g[x], done);
    }
    forall x ensures x in result <==> x in g && !Stuck(g, x) {
      if x in result {
        NotStuck(g, result, x);
      } else if x in g {
        var z := FindBlocked(g, done, [x]);
        assert Stuck(g, x);
      }
    }
  }

  /** From a produced step every walk stays among produced steps, which are not blocked. */
  lemma {:induction false} NotStuck(g: Graph, result: seq<Id>, x: Id)
    requires Distinct(result) && Ordered(g, result) && x in result
    requires forall y :: y in result ==> y in g && RepeatFree(g, g[y])
    ensures !Stuck(g, x)
  {
    if Stuck(g, x) {
      var z :| Blocked(g, z) && Reaches(g, x, z);
      var p :| WalkBetween(g, p, x, z);
      var j := WalkDescends(g, result, p, IndexOf(result, x));
      var c :| ClosedWalk(g, c) && c[0] == z;
      NoCycleThrough(g, result, c);
    }
  }

  /** Following unproduced dependencies from an unproduced step ends at a blocked one. */
  lemma {:induction false} FindBlocked(g: Graph, done: set<Id>, walk: seq<Id>) returns (z: Id)
    requires forall x :: x in g && x !in done ==> !RepeatFree(g, g[x]) || !Satisfied(g, g[x], done)
    requires Walk(g, walk) && Distinct(walk)
    requires forall x :: x in walk ==> x in g && x !in done
    ensures Blocked(g, z) && Reaches(g, walk[0], z)
    decreases |g.Keys - SetOf(walk)|
  {
    var last := walk[|walk| - 1];
    if !RepeatFree(g, g[last]) {
      z := last;
      assert WalkBetween(g, walk, walk[0], z);
    } else {
      z :| z in g[last] && z in g && z !in done;
      var longer := walk + [z];
      ExtendWalk(g, walk, z);
      if z in walk {
        LoopCloses(g, walk, z);
      } else {
        assert z in g.Keys - SetOf(walk) && z !in g.Keys - SetOf(longer);
        SubsetSize(g.Keys - SetOf(longer), g.Keys - SetOf(walk));
        z := FindBlocked(g, done, longer);
        assert longer[0] == walk[0];
      }
    }
  }

  // ----- what the order is good for -----

  /** The plan itself lists stuck steps dependencies first. */
  ghost predicate StuckListedInOrder(steps: seq<StepData>) {
    var g := GraphOf(steps);
    forall x, y :: HasEdge(g, x, y) && y in g && Stuck(g, x) && Stuck(g, y) ==> Precedes(Ids(steps), y, x)
  }

  lemma {:induction false} RemainingKeepsOrder(ids: seq<Id>, done: seq<Id>, y: Id, x: Id)
    requires Distinct(ids) && x in ids && y in ids && x !in done && y !in done
    ensures Precedes(ids, y, x) <==> Precedes(Remaining(ids, done), y, x)
  {
    var front, last := ids[..|ids| - 1], ids[|ids| - 1];
    assert ids == front + [last];
    var r := Remaining(ids, done);
    if x == last {
      if y != last {
        BeforeLast(front, x, y);
        BeforeLast(Remaining(front, done), x, y);
      } else {
        PrecedesSelf(ids, x);
        PrecedesSelf(r, x);
      }
    } else if y == last {
      LastPrecedesNothing(ids, x);
      LastPrecedesNothing(r, x);
    } else {
      RemainingKeepsOrder(front, done, y, x);
      PrecedesFront(front, last, y, x);
      PrecedesFront(Remaining(front, done), last, y, x);
      NilLeft(Remaining(front, done));
    }
  }

  lemma BeforeLast(front: seq<Id>, last: Id, y: Id)
    requires y in front
    ensures Precedes(front + [last], y, last)
  {
    var i, ids := IndexOf(front, y), front + [last];
    assert ids[i] == y && ids[|front|] == last;
  }

  lemma PrecedesSelf(ids: seq<Id>, x: Id)
    requires Distinct(ids)
    ensures !Precedes(ids, x, x)
  {
  }

  lemma LastPrecedesNothing(ids: seq<Id>, x: Id)
    requires Distinct(ids) && ids != []
    ensures !Precedes(ids, ids[|ids| - 1], x)
  {
  }

  lemma PrecedesFront(front: seq<Id>, last: Id, y: Id, x: Id)
    requires x != last
    ensures Precedes(front + [last], y, x) <==> Precedes(front, y, x)
  {
    var ids := front + [last];
    if Precedes(front, y, x) {
      var i, j :| 0 <= i < j < |front| && front[i] == y && front[j] == x;
      assert ids[i] == y && ids[j] == x;
    }
  }

  lemma {:induction false} OrderedListsStuck(steps: seq<StepData>, result: seq<Id>, produced: nat, x: Id, y: Id)
    requires UniqueIds(steps) && KahnResult(steps, result, produced) && Ordered(GraphOf(steps), result)
    requires HasEdge(GraphOf(steps), x, y) && y in GraphOf(steps)
    requires Stuck(GraphOf(steps), x) && Stuck(GraphOf(steps), y)
    ensures Precedes(Ids(steps), y, x)
  {
    var prefix, rest := result[..produced], result[produced..];
    GraphOfKeys(steps);
    assert x in Ids(steps) && y in Ids(steps) && x !in prefix && y !in prefix;
    var j := IndexOf(rest, x);
    assert result[produced + j] == x;
    BeforeInTail(result, produced, produced + j, y);
    var i := IndexOf(rest[..j], y);
    assert rest[i] == y;
    RemainingKeepsOrder(Ids(steps), prefix, y, x);
  }

  lemma {:induction false} BeforeInTail(result: seq<Id>, produced: nat, k: nat, y: Id)
    requires produced <= k <= |result| && y !in result[..produced]
    ensures y in result[..k] <==> y in result[produced..][..k - produced]
  {
    assert result[..k] == result[..produced] + result[produced..][..k - produced];
  }

  lemma {:induction false} ListedStuckIsOrdered(steps: seq<StepData>, result: seq<Id>, produced: nat, i: nat, y: Id)
    requires UniqueIds(steps) && KahnResult(steps, result, produced) && StuckListedInOrder(steps)
    requires i < |result| && HasEdge(GraphOf(steps), result[i], y) && y in GraphOf(steps)
    ensures y in result[..i]
  {
    var prefix, x := result[..produced], result[i];
    GraphOfKeys(steps);
    if i < produced {
      assert prefix[i] == x && prefix[..i] == result[..i];
    } else if y in prefix {
      assert result[..i][IndexOf(prefix, y)] == y;
    } else {
      assert result[produced..][i - produced] == x;
      RemainingKeepsOrder(Ids(steps), prefix, y, x);
      EarlierInTail(result, produced, i, y);
    }
  }

  lemma EarlierInTail(result: seq<Id>, produced: nat, i: nat, y: Id)
    requires produced <= i < |result| && Distinct(result[produced..])
    requires Precedes(result[produced..], y, result[i])
    ensures y in result[..i]
  {
    var rest := result[produced..];
    var a, b :| 0 <= a < b < |rest| && rest[a] == y && rest[b] == result[i];
    assert rest[i - produced] == result[i];
    assert b == i - produced && result[produced + a] == y;
  }

  /** For every plan, repeated dependencies included: the returned order puts each in-plan
      dependency first if and only if the plan already lists its stuck steps that way. */
  lemma {:induction false} OrderRespectsDependenciesIff(steps: seq<StepData>, result: seq<Id>, produced: nat)
    requires UniqueIds(steps) && KahnResult(steps, result, produced)
    ensures Ordered(GraphOf(steps), result) <==> StuckListedInOrder(steps)
  {
    var g := GraphOf(steps);
    if Ordered(g, result) {
      forall x, y | HasEdge(g, x, y) && y in g && Stuck(g, x) && Stuck(g, y) ensures Precedes(Ids(steps), y, x) {
        OrderedListsStuck(steps, result, produced, x, y);
      }
    }
    if StuckListedInOrder(steps) {
      forall i, y | 0 <= i < |result| && HasEdge(g, result[i], y) && y in g ensures y in result[..i] {
        ListedStuckIsOrdered(steps, result, produced, i, y);
      }
    }
  }

  /** There is only one such result: what is produced, in which order, and what follows. */
  lemma {:induction false} KahnResultIsDetermined(steps: seq<StepData>, p: seq<Id>, n: nat, q: seq<Id>, m: nat)
    requires UniqueIds(steps) && KahnResult(steps, p, n) && KahnResult(steps, q, m)
    ensures p == q && n == m
  {
    PermutationOfDistinct(Ids(steps), p);
    PermutationOfDistinct(Ids(steps), q);
    OrderedIsQueued(steps, p, n);
    OrderedIsQueued(steps, q, m);
    assert SetOf(p[..n]) == SetOf(q[..m]);
    QueueDeterminesOrder(GraphOf(steps), Ids(steps), p[..n], q[..m]);
    assert p == p[..n] + p[n..] && q == q[..m] + q[m..];
  }

  lemma OrderedIsQueued(steps: seq<StepData>, p: seq<Id>, n: nat)
    requires Distinct(p) && KahnResult(steps, p, n)
    ensures Queued(GraphOf(steps), Ids(steps), p[..n])
  {
    var g, order := GraphOf(steps), p[..n];
    forall k | 0 <= k < |order| ensures Ready(g, order[..k], order[k]) {
      assert forall y :: HasEdge(g, order[k], y) && y in g ==> y in order[..k];
    }
  }

  /** No step names an in-plan dependency twice. */
  ghost predicate RepeatFreePlan(steps: seq<StepData>) {
    forall i :: 0 <= i < |steps| ==> RepeatFree(GraphOf(steps), steps[i].dependencies)
  }

  /** Without repeated dependencies the order respects every dependency exactly when the plan is
      acyclic, and then nothing is left over. */
  lemma {:induction false} OrderRespectsDependenciesIffAcyclic(steps: seq<StepData>, result: seq<Id>, produced: nat)
    requires UniqueIds(steps) && RepeatFreePlan(steps) && KahnResult(steps, result, produced)
    ensures Ordered(GraphOf(steps), result) <==> Acyclic(GraphOf(steps))
    ensures Acyclic(GraphOf(steps)) ==> produced == |result|
  {
    var g, ids := GraphOf(steps), Ids(steps);
    GraphIndexes(steps);
    if Acyclic(g) {
      forall z ensures !Blocked(g, z) {
        if z in g {
          var i := IndexOf(ids, z);
          assert RepeatFree(g, steps[i].dependencies);
        }
      }
      if result[produced..] != [] {
        HasElement(result[produced..]);
      }
      assert result[..produced] == result;
    }
    if Ordered(g, result) {
      PermutationOfDistinct(ids, result);
      OrderedIsAcyclic(g, result);
    }
  }

  /** c needs a, and a names its one dependency b twice; listed c, a, b. */
  const MISORDERED: seq<StepData> := [
    StepData(Id("c"), [Id("a")], [], [], [], true),
    StepData(Id("a"), [Id("b"), Id("b")], [], [], [], true),
    StepData(Id("b"), [], [], [], [], true)]

  lemma MisorderedGraph()
    ensures GraphOf(MISORDERED) == map[Id("c") := [Id("a")], Id("a") := [Id("b"), Id("b")], Id("b") := []]
    ensures Ids(MISORDERED) == [Id("c"), Id("a"), Id("b")]
  {
    var m := MISORDERED;
    assert m[..1][..0] == [] && m[..2][..1] == m[..1];
    assert GraphOf(m[..1]) == map[Id("c") := [Id("a")]];
    assert GraphOf(m[..2]) == map[Id("c") := [Id("a")], Id("a") := [Id("b"), Id("b")]];
  }

  lemma MisorderedIsAcyclic(g: Graph)
    requires g == map[Id("c") := [Id("a")], Id("a") := [Id("b"), Id("b")], Id("b") := []]
    ensures Acyclic(g)
  {
    var order := [Id("b"), Id("a"), Id("c")];
    assert order[..1] == [Id("b")] && order[..2] == [Id("b"), Id("a")];
    OrderedIsAcyclic(g, order);
  }

  lemma MisorderedIsStuck(g: Graph)
    requires g == map[Id("c") := [Id("a")], Id("a") := [Id("b"), Id("b")], Id("b") := []]
    ensures Stuck(g, Id("a")) && Stuck(g, Id("c")) && HasEdge(g, Id("c"), Id("a"))
  {
    assert g[Id("a")][0] == g[Id("a")][1];
    assert Blocked(g, Id("a"));
    ReachesSelf(g, Id("a"));
    assert HasEdge(g, Id("c"), Id("a"));
    StepThenReach(g, Id("c"), Id("a"), Id("a"));
  }

  /** A repeated dependency spoils the order of an acyclic plan: c comes before the a it needs. */
  lemma RepeatedDependencyMisorders(result: seq<Id>, produced: nat)
    requires KahnResult(MISORDERED, result, produced)
    ensures Acyclic(GraphOf(MISORDERED)) && !Ordered(GraphOf(MISORDERED), result)
  {
    MisorderedGraph();
    MisorderedIsAcyclic(GraphOf(MISORDERED));
    MisorderedResult(MISORDERED, result, produced);
  }

  lemma {:induction false} MisorderedResult(steps: seq<StepData>, result: seq<Id>, produced: nat)
    requires GraphOf(steps) == map[Id("c") := [Id("a")], Id("a") := [Id("b"), Id("b")], Id("b") := []]
    requires Ids(steps) == [Id("c"), Id("a"), Id("b")] && KahnResult(steps, result, produced)
    ensures !Ordered(GraphOf(steps), result)
  {
    MisorderedIsStuck(GraphOf(steps));
    assert !Precedes(Ids(steps), Id("a"), Id("c"));
    OrderRespectsDependenciesIff(steps, result, produced);
  }
}
