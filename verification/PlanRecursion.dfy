/** When `compute_depth` returns: its recursion over the step map, with a bound on the nesting of calls. */
module PlanRecursion {
  import opened Seqs
  import opened PlanGraph

  /**
   * A call for x with at most `limit` calls nested below it, when the depths of the ids in `done` are stored:
   * the ids whose depths are stored afterwards, or nothing if the limit is hit.
   */
  function Visit(g: Graph, done: set<Id>, x: Id, limit: nat): Option<set<Id>>
    decreases limit, 0
  {
    if x in done then Some(done)
    else if x !in g || g[x] == [] then Some(done + {x})
    else if limit == 0 then None
    else match VisitAll(g, done, g[x], limit - 1)
         case None => None
         case Some(after) => Some(after + {x})
  }

  /** One call after the other. */
  function VisitAll(g: Graph, done: set<Id>, ids: seq<Id>, limit: nat): Option<set<Id>>
    decreases limit, |ids| + 1
  {
    if ids == [] then Some(done)
    else match Visit(g, done, ids[0], limit)
         case None => None
         case Some(after) => VisitAll(g, after, ids[1..], limit)
  }

  ghost predicate Endless(g: Graph, x: Id) {
    exists z :: OnCycle(g, z) && Reaches(g, x, z)
  }

  lemma CycleIsEndless(g: Graph, c: seq<Id>)
    requires ClosedWalk(g, c)
    ensures c[0] in g && Endless(g, c[0])
  {
    assert HasEdge(g, c[0], c[1]);
    ReachesSelf(g, c[0]);
    assert OnCycle(g, c[0]);
  }

  /** What reaches a cycle has a dependency that does, and the other way round. */
  lemma EndlessStep(g: Graph, x: Id)
    ensures Endless(g, x) <==> exists d :: HasEdge(g, x, d) && Endless(g, d)
  {
    if Endless(g, x) {
      var z :| OnCycle(g, z) && Reaches(g, x, z);
      var p :| WalkBetween(g, p, x, z);
      if |p| > 1 {
        WalkSlice(g, p, 1, |p|);
        assert WalkBetween(g, p[1..|p|], p[1], z);
        assert HasEdge(g, x, p[1]) && Endless(g, p[1]);
      } else {
        var c :| ClosedWalk(g, c) && c[0] == z;
        WalkSlice(g, c, 1, |c|);
        assert WalkBetween(g, c[1..|c|], c[1], z);
        assert HasEdge(g, x, c[1]) && Endless(g, c[1]);
      }
    }
    if d :| HasEdge(g, x, d) && Endless(g, d) {
      var z :| OnCycle(g, z) && Reaches(g, d, z);
      StepThenReach(g, x, d, z);
    }
  }

  /** Whatever the limit, a call that returns has met no cycle. */
  lemma {:induction false} ReturnedIsFinite(g: Graph, done: set<Id>, x: Id, limit: nat)
    requires (forall y :: y in done ==> !Endless(g, y)) && Visit(g, done, x, limit).Some?
    ensures var after := Visit(g, done, x, limit).value;
            done <= after && x in after && forall y :: y in after ==> !Endless(g, y)
    decreases limit, 0
  {
    EndlessStep(g, x);
    if x !in done && x in g && g[x] != [] {
      AllReturnedAreFinite(g, done, g[x], limit - 1);
    }
  }

  lemma {:induction false} AllReturnedAreFinite(g: Graph, done: set<Id>, ids: seq<Id>, limit: nat)
    requires (forall y :: y in done ==> !Endless(g, y)) && VisitAll(g, done, ids, limit).Some?
    ensures var after := VisitAll(g, done, ids, limit).value;
            done <= after && (forall y :: y in ids ==> y in after) && forall y :: y in after ==> !Endless(g, y)
    decreases limit, |ids| + 1
  {
    if ids != [] {
      ReturnedIsFinite(g, done, ids[0], limit);
      AllReturnedAreFinite(g, Visit(g, done, ids[0], limit).value, ids[1..], limit);
    }
  }

  /** Where no cycle is reached, as many nested calls as there are ids to reach are enough. */
  lemma {:induction false} FiniteReturns(g: Graph, done: set<Id>, x: Id, limit: nat)
    requires !Endless(g, x) && |ReachSet(g, x)| <= limit
    ensures Visit(g, done, x, limit).Some?
    decreases limit, 0
  {
    EndlessStep(g, x);
    ReachesSelf(g, x);
    assert x in ReachSet(g, x);
    if x !in done && x in g && g[x] != [] {
      forall d | d in g[x] ensures !Endless(g, d) && |ReachSet(g, d)| <= limit - 1 {
        assert HasEdge(g, x, d);
        ReachShrinks(g, x, d);
        SubsetSize(ReachSet(g, d), ReachSet(g, x));
      }
      AllFiniteReturn(g, done, g[x], limit - 1);
    }
  }

  lemma {:induction false} AllFiniteReturn(g: Graph, done: set<Id>, ids: seq<Id>, limit: nat)
    requires forall y :: y in ids ==> !Endless(g, y) && |ReachSet(g, y)| <= limit
    ensures VisitAll(g, done, ids, limit).Some?
    decreases limit, |ids| + 1
  {
    if ids != [] {
      FiniteReturns(g, done, ids[0], limit);
      AllFiniteReturn(g, Visit(g, done, ids[0], limit).value, ids[1..], limit);
    }
  }

  /** `compute_depth` returns for a step, under some limit on nested calls, exactly when the step reaches no cycle. */
  lemma DepthReturnsIff(g: Graph, x: Id)
    ensures (exists limit: nat :: Visit(g, {}, x, limit).Some?) <==> !Endless(g, x)
  {
    if limit: nat :| Visit(g, {}, x, limit).Some? {
      ReturnedIsFinite(g, {}, x, limit);
    }
    if !Endless(g, x) {
      FiniteReturns(g, {}, x, |ReachSet(g, x)|);
    }
  }

  /** So the depths of all steps are computed, under some limit, exactly when the plan is acyclic. */
  lemma DepthsReturnIff(steps: seq<StepData>)
    ensures (exists limit: nat :: VisitAll(GraphOf(steps), {}, Ids(steps), limit).Some?) <==> Acyclic(GraphOf(steps))
  {
    var g := GraphOf(steps);
    if limit: nat :| VisitAll(g, {}, Ids(steps), limit).Some? {
      AllReturnedAreFinite(g, {}, Ids(steps), limit);
      GraphOfKeys(steps);
      forall c ensures !ClosedWalk(g, c) {
        if ClosedWalk(g, c) {
          CycleIsEndless(g, c);
        }
      }
    }
    if Acyclic(g) {
      forall y | y in Ids(steps) ensures !Endless(g, y) && |ReachSet(g, y)| <= |Universe(g)| + 1 {
        SubsetSize(ReachSet(g, y), Universe(g) + {y});
        SubsetSize(Universe(g), Universe(g) + {y});
      }
      AllFiniteReturn(g, {}, Ids(steps), |Universe(g)| + 1);
    }
  }
}
