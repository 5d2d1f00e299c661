/** `validate_plan`: the verdict and everything reported with it. */
module PlanValidation {
  import opened Seqs
  import opened PlanGraph
  import opened PlanQueue
  import opened PlanCycles
  import opened PlanTopology
  import opened PlanCriticalPath
  import opened PlanConflicts
  import opened PlanGroups

  datatype ValidationResult = ValidationResult(
    valid: bool,
    topologicalOrder: seq<Id>,
    cycles: seq<seq<Id>>,
    orphans: seq<Id>,
    criticalPath: seq<Id>,
    parallelGroups: map<string, seq<Id>>,
    conflicts: seq<Conflict>)

  /** A step without dependencies on which nothing depends. */
  ghost predicate Orphan(steps: seq<StepData>, x: Id) {
    && (exists i :: 0 <= i < |steps| && steps[i].id == x && steps[i].dependencies == [])
    && forall j :: 0 <= j < |steps| ==> x !in steps[j].dependencies
  }

  method FindOrphans(steps: seq<StepData>) returns (orphans: seq<Id>)
    ensures forall x :: x in orphans <==> Orphan(steps, x)
    ensures UniqueIds(steps) ==> Distinct(orphans)
    ensures PlanOrdered(Ids(steps), orphans)
  {
    var hasDependent: set<Id> := {};
    for i := 0 to |steps|
      invariant forall x :: x in hasDependent <==> exists j :: 0 <= j < i && x in steps[j].dependencies
    {
      hasDependent := hasDependent + SetOf(steps[i].dependencies);
    }
    orphans := [];
    for i := 0 to |steps|
      invariant forall x :: x in orphans <==>
        x !in hasDependent && exists j :: 0 <= j < i && steps[j].id == x && steps[j].dependencies == []
      invariant UniqueIds(steps) ==> Distinct(orphans)
      invariant PlanOrdered(Ids(steps), orphans) && forall x :: x in orphans ==> x in Ids(steps)[..i]
    {
      assert UniqueIds(steps) ==> forall j :: 0 <= j < i ==> Ids(steps)[j] != Ids(steps)[i];
      TakeMore(Ids(steps), i);
      if steps[i].dependencies == [] && steps[i].id !in hasDependent {
        PlanOrderedSnoc(Ids(steps), i, orphans);
        orphans := orphans + [steps[i].id];
      }
    }
  }

  /** The ids of the steps that carry a group name, in plan order. */
  ghost function Members(steps: seq<Step>, name: string): seq<Id>
    reads steps
  {
    if steps == [] then [] else
      var front, last := steps[..|steps| - 1], steps[|steps| - 1];
      Members(front, name) + if last.parallelGroup == Some(name) then [last.data.id] else []
  }

  function CarrierPlaces(steps: seq<Step>, name: string): set<nat>
    reads steps
  {
    set i: nat | i < |steps| && steps[i].parallelGroup == Some(name)
  }

  /** The members stand where the carriers of the name do, in plan order. */
  lemma {:induction false} MembersPlaces(steps: seq<Step>, name: string) returns (places: seq<nat>)
    ensures PickedAt(Ids(Data(steps)), Members(steps, name), places) && SetOf(places) == CarrierPlaces(steps, name)
    decreases |steps|
  {
    places := [];
    if steps != [] {
      var front, last := steps[..|steps| - 1], steps[|steps| - 1];
      places := MembersPlaces(front, name);
      assert Ids(Data(steps)) == Ids(Data(front)) + [last.data.id];
      assert CarrierPlaces(steps, name)
          == CarrierPlaces(front, name) + if last.parallelGroup == Some(name) then {|front|} else {};
      var carries := last.parallelGroup == Some(name);
      places := PickNext(Ids(Data(front)), last.data.id, Members(front, name), places, carries);
    }
  }

  ghost predicate GroupReport(steps: seq<Step>, groups: map<string, seq<Id>>)
    reads steps
  {
    && (forall name :: name in groups <==> name != "" && Members(steps, name) != [])
    && forall name :: name in groups ==> groups[name] == Members(steps, name)
  }

  /** `if step.parallel_group:` also skips the empty name. */
  method CollectGroups(steps: seq<Step>) returns (groups: map<string, seq<Id>>)
    ensures GroupReport(steps, groups)
  {
    groups := map[];
    for i := 0 to |steps|
      invariant GroupReport(steps[..i], groups)
    {
      TakeMore(steps, i);
      TakeAll(steps[..i], steps[i]);
      match steps[i].parallelGroup
      case None =>
      case Some(name) =>
        if name != "" {
          var before := if name in groups then groups[name] else [];
          groups := groups[name := before + [steps[i].data.id]];
        }
    }
    assert steps[..|steps|] == steps;
  }

  method ValidatePlan(steps: seq<Step>) returns (r: ValidationResult)
    requires UniqueIds(Data(steps))
    // the verdict, and what it says about cycles, order and critical path
    ensures r.valid <==> Acyclic(GraphOf(Data(steps)))
    ensures r.valid <==> r.cycles == []
    ensures SearchReport(GraphOf(Data(steps)), r.cycles)
    ensures forall w :: ClosedWalk(GraphOf(Data(steps)), w) ==> TakesReportedEdge(r.cycles, w)
    ensures exists n :: KahnResult(Data(steps), r.topologicalOrder, n)
    ensures Ordered(GraphOf(Data(steps)), r.topologicalOrder) <==> StuckListedInOrder(Data(steps))
    ensures RepeatFreePlan(Data(steps)) ==> (r.valid <==> Ordered(GraphOf(Data(steps)), r.topologicalOrder))
    ensures r.valid && steps != [] ==>
      CriticalPath(Data(steps), r.criticalPath) && FirstCritical(Data(steps), r.criticalPath)
    ensures !r.valid ==> r.criticalPath == []
    // the reports beside it
    ensures Distinct(r.orphans) && PlanOrdered(Ids(Data(steps)), r.orphans)
    ensures forall x :: x in r.orphans <==> Orphan(Data(steps), x)
    ensures GroupReport(steps, r.parallelGroups) && r.conflicts == ConflictReport(Data(steps))
  {
    var data := Data(steps);
    var orphans := FindOrphans(data);
    var parallelGroups := CollectGroups(steps);
    var conflicts := DetectConflicts(data);
    var valid, cycles, order, criticalPath := Judge(data);
    r := ValidationResult(valid, order, cycles, orphans, criticalPath, parallelGroups, conflicts);
  }

  /** The parts of the report the verdict is about. */
  method Judge(steps: seq<StepData>) returns (valid: bool, cycles: seq<seq<Id>>, order: seq<Id>, criticalPath: seq<Id>)
    requires UniqueIds(steps)
    ensures valid <==> Acyclic(GraphOf(steps))
    ensures valid <==> cycles == []
    ensures SearchReport(GraphOf(steps), cycles)
    ensures forall w :: ClosedWalk(GraphOf(steps), w) ==> TakesReportedEdge(cycles, w)
    ensures exists n :: KahnResult(steps, order, n)
    ensures Ordered(GraphOf(steps), order) <==> StuckListedInOrder(steps)
    ensures RepeatFreePlan(steps) ==> (valid <==> Ordered(GraphOf(steps), order))
    ensures valid && steps != [] ==> CriticalPath(steps, criticalPath) && FirstCritical(steps, criticalPath)
    ensures !valid ==> criticalPath == []
  {
    cycles := FindCycles(steps);
    criticalPath := FindCriticalPath(steps);
    ghost var produced;
    order, produced := TopologicalSort(steps);
    if RepeatFreePlan(steps) {
      OrderRespectsDependenciesIffAcyclic(steps, order, produced);
    }
    valid := cycles == [];
  }
}
