/** What `decompose` gets when it groups steps whose dependencies are still titles. */
module PlanDecompose {
  import opened Seqs
  import opened PlanGraph
  import opened PlanCriticalPath
  import opened PlanConflicts
  import opened PlanGroups

  ghost predicate DependenciesOutside(steps: seq<StepData>) {
    forall i, d :: 0 <= i < |steps| && d in steps[i].dependencies ==> d !in Ids(steps)
  }

  lemma {:induction false} OutsideIsAcyclic(steps: seq<StepData>)
    requires UniqueIds(steps) && DependenciesOutside(steps)
    ensures Acyclic(GraphOf(steps))
  {
    var g, ids := GraphOf(steps), Ids(steps);
    GraphIndexes(steps);
    forall i, y | 0 <= i < |ids| && HasEdge(g, ids[i], y) ensures y !in g {
      assert g[steps[i].id] == steps[i].dependencies;
    }
    OrderedIsAcyclic(g, ids);
  }

  /** Depth then says only whether a step names any dependency. */
  lemma {:induction false} OutsideDepth(steps: seq<StepData>, i: nat)
    requires UniqueIds(steps) && DependenciesOutside(steps) && i < |steps|
    requires Acyclic(GraphOf(steps))
    ensures Depth(GraphOf(steps), steps[i].id) == if steps[i].dependencies == [] then 0 else 1
  {
    var g, s := GraphOf(steps), steps[i];
    GraphIndexes(steps);
    if s.dependencies != [] {
      BestOfIsBest(g, s.id, |g[s.id]|);
      var j :| 0 <= j < |g[s.id]| && BestOf(g, s.id, |g[s.id]|) == Longest(g, g[s.id][j]);
      assert s.dependencies[j] !in g;
    }
  }

  /** The same steps with titles replaced by ids; a step that named nothing still depends on nothing. */
  ghost predicate Resolves(steps: seq<StepData>, resolved: seq<StepData>) {
    && |resolved| == |steps|
    && forall i :: 0 <= i < |steps| ==>
         resolved[i].id == steps[i].id && (steps[i].dependencies == [] ==> resolved[i].dependencies == [])
  }

  lemma {:induction false} NoEdgesNoReach(g: Graph, x: Id, y: Id)
    requires x in g && g[x] == [] && Reaches(g, x, y)
    ensures x == y
  {
    var p :| WalkBetween(g, p, x, y);
    assert |p| > 1 ==> HasEdge(g, p[0], p[1]);
  }

  /** However the titles are resolved, the group of the steps that name no dependency stays an antichain:
      only steps that both name one can end up in a group with a dependency between them. */
  lemma {:induction false} OnlyNamingStepsLoseAntichain(steps: seq<StepData>, resolved: seq<StepData>, i: nat, j: nat)
    requires UniqueIds(steps) && DependenciesOutside(steps) && Acyclic(GraphOf(steps)) && Resolves(steps, resolved)
    requires i < |steps| && j < |steps| && i != j && SameGroup(GraphOf(steps), steps, steps[i], steps[j])
    requires Reaches(GraphOf(resolved), steps[i].id, steps[j].id)
    ensures Naming(steps[i]) && Naming(steps[j])
  {
    var g := GraphOf(steps);
    GroupNameInjective(Depth(g, steps[i].id), Depth(g, steps[j].id));
    OutsideDepth(steps, i);
    OutsideDepth(steps, j);
    assert Ids(resolved) == Ids(steps);
    GraphIndexes(resolved);
    assert Ids(steps)[i] != Ids(steps)[j];
    if steps[i].dependencies == [] {
      NoEdgesNoReach(GraphOf(resolved), steps[i].id, steps[j].id);
    }
  }

  // ----- exactly when the groups are antichains all the same -----

  /** A parallel-safe step that names a dependency. */
  predicate Naming(s: StepData) {
    s.parallelSafe && s.dependencies != []
  }

  ghost predicate NamingStepsClash(steps: seq<StepData>) {
    exists i, j :: 0 <= i < j < |steps| && Naming(steps[i]) && Naming(steps[j]) && Clash(steps[i], steps[j])
  }

  /** No parallel-safe step that names a dependency depends on another one, once titles are ids. */
  ghost predicate NamingStepsApart(steps: seq<StepData>, g: Graph) {
    forall i, j :: 0 <= i < |steps| && 0 <= j < |steps| && i != j && Naming(steps[i]) && Naming(steps[j]) ==>
      !Reaches(g, steps[i].id, steps[j].id)
  }

  /** No two steps grouped while dependencies were titles reach each other once they are ids. */
  ghost predicate GroupsAreAntichains(steps: seq<StepData>, g: Graph)
    requires Acyclic(GraphOf(steps))
  {
    forall i, j ::
      (0 <= i < |steps| && 0 <= j < |steps| && i != j && SameGroup(GraphOf(steps), steps, steps[i], steps[j])) ==>
      !Reaches(g, steps[i].id, steps[j].id)
  }

  ghost predicate LevelClashes(g: Graph, steps: seq<StepData>, depth: nat)
    requires Acyclic(g)
  {
    exists i, j :: 0 <= i < j < |steps| && OnLevel(g, steps[i], depth) && OnLevel(g, steps[j], depth)
      && Clash(steps[i], steps[j])
  }

  ghost predicate LastClashes(g: Graph, front: seq<StepData>, last: StepData, depth: nat)
    requires Acyclic(g)
  {
    exists i :: 0 <= i < |front| && OnLevel(g, front[i], depth) && Clash(front[i], last)
  }

  ghost predicate ClashesWithOne(steps: seq<StepData>, s: StepData) {
    exists i :: 0 <= i < |steps| && Clash(steps[i], s)
  }

  lemma {:induction false} ClashFreeSnoc(front: seq<StepData>, last: StepData)
    ensures ClashFree(front + [last]) <==> ClashFree(front) && !ClashesWithOne(front, last)
  {
    var s := front + [last];
    assert forall i :: 0 <= i < |front| ==> s[i] == front[i];
    assert s[|front|] == last;
    if ClashesWithOne(front, last) {
      var i :| 0 <= i < |front| && Clash(front[i], last);
      assert Clash(s[i], s[|front|]);
    }
    if ClashFree(s) {
      forall i, j | 0 <= i < j < |front| ensures !Clash(front[i], front[j]) {
        assert !Clash(s[i], s[j]);
      }
    }
  }

  lemma {:induction false} LevelClashesSnoc(g: Graph, front: seq<StepData>, last: StepData, depth: nat)
    requires Acyclic(g)
    ensures LevelClashes(g, front + [last], depth)
       <==> LevelClashes(g, front, depth) || (OnLevel(g, last, depth) && LastClashes(g, front, last, depth))
  {
    var s := front + [last];
    assert forall i :: 0 <= i < |front| ==> s[i] == front[i];
    if LevelClashes(g, front, depth) {
      var i, j :| 0 <= i < j < |front| && OnLevel(g, front[i], depth) && OnLevel(g, front[j], depth)
        && Clash(front[i], front[j]);
      assert Clash(s[i], s[j]);
    }
    if OnLevel(g, last, depth) && LastClashes(g, front, last, depth) {
      var i :| 0 <= i < |front| && OnLevel(g, front[i], depth) && Clash(front[i], last);
      assert Clash(s[i], s[|front|]);
    }
  }

  lemma {:induction false} LevelSnoc(g: Graph, front: seq<StepData>, s: StepData, depth: nat)
    requires Acyclic(g)
    ensures Level(g, front + [s], depth) ==
      Level(g, front, depth) + if s.parallelSafe && Depth(g, s.id) == depth then [s] else []
  {
    assert (front + [s])[..|front|] == front;
  }

  lemma {:induction false} LevelClashFree(g: Graph, steps: seq<StepData>, depth: nat)
    requires Acyclic(g)
    ensures ClashFree(Level(g, steps, depth)) <==> !LevelClashes(g, steps, depth)
  {
    if steps != [] {
      var front, last := steps[..|steps| - 1], steps[|steps| - 1];
      assert steps == front + [last];
      LevelClashFree(g, front, depth);
      LevelClashesSnoc(g, front, last, depth);
      LevelSnoc(g, front, last, depth);
      NilLeft(Level(g, front, depth));
      ClashFreeSnoc(Level(g, front, depth), last);
      ClashesWithLevel(g, front, last, depth);
    }
  }

  lemma {:induction false} ClashesWithLevel(g: Graph, front: seq<StepData>, last: StepData, depth: nat)
    requires Acyclic(g)
    ensures LastClashes(g, front, last, depth) <==> ClashesWithOne(Level(g, front, depth), last)
  {
    var level := Level(g, front, depth);
    LevelMembers(g, front, depth);
    if LastClashes(g, front, last, depth) {
      var i :| 0 <= i < |front| && OnLevel(g, front[i], depth) && Clash(front[i], last);
      assert front[i] in level;
      var k := IndexOf(level, front[i]);
      assert Clash(level[k], last);
    }
    if ClashesWithOne(level, last) {
      var k :| 0 <= k < |level| && Clash(level[k], last);
      assert level[k] in level;
      var i := IndexOf(front, level[k]);
      assert OnLevel(g, front[i], depth) && Clash(front[i], last);
    }
  }

  lemma {:induction false} TwoOnLevel(g: Graph, steps: seq<StepData>, depth: nat, i: nat, j: nat)
    requires Acyclic(g) && i < j < |steps| && OnLevel(g, steps[i], depth) && OnLevel(g, steps[j], depth)
    ensures |Level(g, steps, depth)| > 1
  {
    var front, last := steps[..|steps| - 1], steps[|steps| - 1];
    if j < |front| {
      TwoOnLevel(g, front, depth, i, j);
    } else {
      LevelMembers(g, front, depth);
      assert front[i] in Level(g, front, depth);
    }
  }

  /** The steps on level one are exactly the parallel-safe ones that name a dependency. */
  lemma {:induction false} LevelOneNames(steps: seq<StepData>)
    requires UniqueIds(steps) && DependenciesOutside(steps) && Acyclic(GraphOf(steps))
    ensures forall i :: 0 <= i < |steps| ==> (OnLevel(GraphOf(steps), steps[i], 1) <==> Naming(steps[i]))
  {
    forall i | 0 <= i < |steps| ensures OnLevel(GraphOf(steps), steps[i], 1) <==> Naming(steps[i]) {
      OutsideDepth(steps, i);
    }
  }

  lemma {:induction false} NamingClashIsLevelClash(steps: seq<StepData>)
    requires UniqueIds(steps) && DependenciesOutside(steps) && Acyclic(GraphOf(steps))
    ensures LevelClashes(GraphOf(steps), steps, 1) <==> NamingStepsClash(steps)
  {
    LevelOneNames(steps);
  }

  /** Two naming steps share a group exactly when no two naming steps clash. */
  lemma {:induction false} NamingStepsGrouped(steps: seq<StepData>, i: nat, j: nat)
    requires UniqueIds(steps) && DependenciesOutside(steps) && Acyclic(GraphOf(steps))
    requires i < |steps| && j < |steps| && i != j && Naming(steps[i]) && Naming(steps[j])
    ensures SameGroup(GraphOf(steps), steps, steps[i], steps[j]) <==> !NamingStepsClash(steps)
  {
    var g := GraphOf(steps);
    LevelOneNames(steps);
    NamingClashIsLevelClash(steps);
    LevelClashFree(g, steps, 1);
    TwoOnLevel(g, steps, 1, if i < j then i else j, if i < j then j else i);
  }

  /**
   * Grouping before the titles are resolved keeps the antichain property exactly when two parallel-safe
   * steps that name dependencies clash, so that they are not grouped at all, or none of them depends on
   * another.
   */
  lemma {:induction false} TitledGroupsAreAntichainsIff(steps: seq<StepData>, resolved: seq<StepData>)
    requires UniqueIds(steps) && DependenciesOutside(steps) && Resolves(steps, resolved)
    ensures Acyclic(GraphOf(steps))
    ensures GroupsAreAntichains(steps, GraphOf(resolved))
       <==> NamingStepsClash(steps) || NamingStepsApart(steps, GraphOf(resolved))
  {
    var g := GraphOf(resolved);
    OutsideIsAcyclic(steps);
    if !GroupsAreAntichains(steps, g) {
      var i, j :| 0 <= i < |steps| && 0 <= j < |steps| && i != j
                  && SameGroup(GraphOf(steps), steps, steps[i], steps[j]) && Reaches(g, steps[i].id, steps[j].id);
      OnlyNamingStepsLoseAntichain(steps, resolved, i, j);
      NamingStepsGrouped(steps, i, j);
    }
    if !NamingStepsClash(steps) && !NamingStepsApart(steps, g) {
      var i, j :| 0 <= i < |steps| && 0 <= j < |steps| && i != j && Naming(steps[i]) && Naming(steps[j])
                  && Reaches(g, steps[i].id, steps[j].id);
      NamingStepsGrouped(steps, i, j);
    }
  }

  // ----- the built-in feature template -----

  const ANALYZE := StepData(Id("step_1"), [], ["README.md", "ARCHITECTURE.md"], [], [], true)
  const DESIGN := StepData(Id("step_2"), [Id("Analyze requirements")], ["app/core/models.py", "app/api/"], [], [], true)
  const CORE := StepData(Id("step_3"), [Id("Design implementation")], ["app/core/models.py"],
                         ["app/core/*.py", "app/api/*.py"], [], false)
  const ENDPOINTS := StepData(Id("step_4"), [Id("Implement core logic")], ["app/api/"], ["app/api/*.py"], [], true)
  const TESTS := StepData(Id("step_5"), [Id("Implement core logic")], ["app/core/", "app/api/"],
                          ["tests/**/*.py"], [], true)

  /** The steps as `_instantiate_steps` hands them to the grouping: dependencies are titles. */
  const TITLED: seq<StepData> := [ANALYZE, DESIGN, CORE, ENDPOINTS, TESTS]

  /** The same steps after `_compute_dependencies` replaced titles by ids. */
  const RESOLVED: seq<StepData> := [
    ANALYZE,
    DESIGN.(dependencies := [ANALYZE.id]),
    CORE.(dependencies := [DESIGN.id]),
    ENDPOINTS.(dependencies := [CORE.id]),
    TESTS.(dependencies := [CORE.id])]

  lemma TitledIdsDiffer()
    ensures UniqueIds(TITLED)
  {
    assert forall i :: 0 <= i < |TITLED| ==> Ids(TITLED)[i].text[5] == ['1', '2', '3', '4', '5'][i];
  }

  lemma TitlesAreNoIds()
    ensures DependenciesOutside(TITLED)
  {
    forall i, d | 0 <= i < |TITLED| && d in TITLED[i].dependencies ensures d !in Ids(TITLED) {
      assert d.text[0] in "ADI";
      assert forall id :: id in Ids(TITLED) ==> id.text[0] == 's';
    }
  }

  lemma TitledIsOutside()
    ensures UniqueIds(TITLED) && DependenciesOutside(TITLED) && Acyclic(GraphOf(TITLED))
  {
    TitledIdsDiffer();
    TitlesAreNoIds();
    OutsideIsAcyclic(TITLED);
  }

  lemma {:induction false} TitledLevel()
    requires Acyclic(GraphOf(TITLED))
    ensures Level(GraphOf(TITLED), TITLED, 1) == [DESIGN, ENDPOINTS, TESTS]
  {
    var g := GraphOf(TITLED);
    TitledIsOutside();
    OutsideDepth(TITLED, 0);
    OutsideDepth(TITLED, 1);
    OutsideDepth(TITLED, 3);
    OutsideDepth(TITLED, 4);
    LevelSnoc(g, [], ANALYZE, 1);
    assert [] + [ANALYZE] == [ANALYZE];
    LevelSnoc(g, [ANALYZE], DESIGN, 1);
    assert [ANALYZE] + [DESIGN] == [ANALYZE, DESIGN];
    LevelSnoc(g, [ANALYZE, DESIGN], CORE, 1);
    assert [ANALYZE, DESIGN] + [CORE] == [ANALYZE, DESIGN, CORE];
    LevelSnoc(g, [ANALYZE, DESIGN, CORE], ENDPOINTS, 1);
    assert [ANALYZE, DESIGN, CORE] + [ENDPOINTS] == [ANALYZE, DESIGN, CORE, ENDPOINTS];
    LevelSnoc(g, [ANALYZE, DESIGN, CORE, ENDPOINTS], TESTS, 1);
    assert [ANALYZE, DESIGN, CORE, ENDPOINTS] + [TESTS] == TITLED;
  }

  lemma {:induction false} NoClash(a: StepData, b: StepData)
    requires forall r :: r in a.writeSet ==> r !in b.writeSet && r !in b.readSet
    requires forall r :: r in b.writeSet ==> r !in a.readSet
    ensures !Clash(a, b)
  {
    ClashIsInterference(a, b);
  }

  lemma TitledLevelNoClash()
    ensures !Clash(DESIGN, ENDPOINTS) && !Clash(DESIGN, TESTS) && !Clash(ENDPOINTS, TESTS)
  {
    assert "tests/**/*.py"[0] == 't' && "app/api/*.py"[8] == '*' && |"app/api/"| == 8 && |"app/core/"| == 9;
    NoClash(DESIGN, ENDPOINTS);
    NoClash(DESIGN, TESTS);
    NoClash(ENDPOINTS, TESTS);
  }

  lemma TitledSameGroup()
    requires Acyclic(GraphOf(TITLED))
    ensures SameGroup(GraphOf(TITLED), TITLED, ENDPOINTS, DESIGN)
  {
    var level := Level(GraphOf(TITLED), TITLED, 1);
    TitledLevel();
    TitledLevelNoClash();
    LevelMembers(GraphOf(TITLED), TITLED, 1);
    assert level[0] == DESIGN && level[1] == ENDPOINTS;
  }

  /** The antichain property is lost when grouping runs before the titles are resolved: the feature
      template puts "Design implementation" and "Add API endpoints" in one group, although the
      second depends, through "Implement core logic", on the first. */
  lemma {:induction false} GroupedBeforeResolution()
    ensures Acyclic(GraphOf(TITLED)) && SameGroup(GraphOf(TITLED), TITLED, ENDPOINTS, DESIGN)
    ensures Reaches(GraphOf(RESOLVED), ENDPOINTS.id, DESIGN.id)
  {
    TitledIsOutside();
    TitledSameGroup();
    ResolvedReaches();
  }

  lemma {:induction false} ResolvedReaches()
    ensures Reaches(GraphOf(RESOLVED), ENDPOINTS.id, DESIGN.id)
  {
    var g := GraphOf(RESOLVED);
    assert Ids(RESOLVED) == [Id("step_1"), Id("step_2"), Id("step_3"), Id("step_4"), Id("step_5")];
    assert "step_1"[5] == '1' && "step_2"[5] == '2' && "step_3"[5] == '3' && "step_4"[5] == '4' && "step_5"[5] == '5';
    GraphIndexes(RESOLVED);
    assert g[RESOLVED[3].id] == RESOLVED[3].dependencies && g[RESOLVED[2].id] == RESOLVED[2].dependencies;
    assert HasEdge(g, ENDPOINTS.id, CORE.id) && HasEdge(g, CORE.id, DESIGN.id);
    assert WalkBetween(g, [ENDPOINTS.id, CORE.id, DESIGN.id], ENDPOINTS.id, DESIGN.id);
  }
}
