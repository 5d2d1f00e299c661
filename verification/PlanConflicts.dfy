/** `_check_conflict` and `_detect_conflicts`, and what the absence of conflicts buys. */
module PlanConflicts {
  import opened Seqs
  import opened Pairs
  import opened PlanGraph

  datatype ConflictClass = ReadOnlyCompatible | PotentialConflict | HardConflict

  datatype Conflict = Conflict(stepA: Id, stepB: Id, class_: ConflictClass, shared: set<string>)

  function CheckConflict(a: StepData, b: StepData): Option<Conflict> {
    var writeA, writeB := SetOf(a.writeSet), SetOf(b.writeSet);
    var readA, readB := SetOf(a.readSet), SetOf(b.readSet);
    var shared := (SetOf(a.sharedResources) + readA) * (SetOf(b.sharedResources) + readB);
    if writeA * writeB != {} then
      Some(Conflict(a.id, b.id, HardConflict, writeA * writeB))
    else if writeA * readB != {} then
      Some(Conflict(a.id, b.id, PotentialConflict, writeA * readB))
    else if writeB * readA != {} then
      Some(Conflict(a.id, b.id, PotentialConflict, writeB * readA))
    else if shared != {} then
      Some(Conflict(a.id, b.id, ReadOnlyCompatible, shared))
    else
      None
  }

  /** The classes that keep two steps out of a common parallel group. */
  predicate Clash(a: StepData, b: StepData) {
    var c := CheckConflict(a, b);
    c.Some? && (c.value.class_.HardConflict? || c.value.class_.PotentialConflict?)
  }

  /** One step writes something the other reads or writes. */
  ghost predicate Interfere(a: StepData, b: StepData) {
    exists r ::
      || (r in a.writeSet && (r in b.writeSet || r in b.readSet))
      || (r in b.writeSet && r in a.readSet)
  }

  lemma ClashIsInterference(a: StepData, b: StepData)
    ensures Clash(a, b) <==> Interfere(a, b)
    ensures Clash(a, b) <==> Clash(b, a)
  {
    var writeA, writeB := SetOf(a.writeSet), SetOf(b.writeSet);
    var readA, readB := SetOf(a.readSet), SetOf(b.readSet);
    if Clash(a, b) {
      var r :| r in writeA * writeB || r in writeA * readB || r in writeB * readA;
      assert Interfere(a, b);
    }
    if Interfere(a, b) {
      var r :|
        || (r in a.writeSet && (r in b.writeSet || r in b.readSet))
        || (r in b.writeSet && r in a.readSet);
      assert r in writeA * writeB || r in writeA * readB || r in writeB * readA;
    }
    assert writeA * writeB == writeB * writeA;
  }

  ghost predicate BothWrite(a: StepData, b: StepData) {
    exists r :: r in a.writeSet && r in b.writeSet
  }

  /** Both read it or name it as a shared resource. */
  ghost predicate BothUse(a: StepData, b: StepData) {
    exists r :: Uses(a, r) && Uses(b, r)
  }

  ghost predicate Feeds(a: StepData, b: StepData) {
    exists r :: r in a.writeSet && r in b.readSet
  }

  predicate Uses(a: StepData, r: string) {
    r in a.sharedResources || r in a.readSet
  }

  /** The resources a conflict is about, by its class. */
  ghost predicate AboutResource(a: StepData, b: StepData, class_: ConflictClass, r: string) {
    match class_
    case HardConflict => r in a.writeSet && r in b.writeSet
    case PotentialConflict =>
      if Feeds(a, b) then r in a.writeSet && r in b.readSet else r in b.writeSet && r in a.readSet
    case ReadOnlyCompatible => Uses(a, r) && Uses(b, r)
  }

  lemma CommonElement(s: seq<string>, t: seq<string>)
    ensures SetOf(s) * SetOf(t) == {} <==> !exists r :: r in s && r in t
  {
    if SetOf(s) * SetOf(t) != {} {
      var r :| r in SetOf(s) * SetOf(t);
      assert r in s && r in t;
    }
    if r :| r in s && r in t {
      assert r in SetOf(s) * SetOf(t);
    }
  }

  /**
   * The class says which kind of access meets which: two writes, a write and a read, or two uses. The
   * shared resources are exactly those where they meet, and there is always one.
   */
  lemma ConflictClassIff(a: StepData, b: StepData)
    ensures var c := CheckConflict(a, b);
            && (c.Some? && c.value.class_ == HardConflict <==> BothWrite(a, b))
            && (c.Some? && c.value.class_ == PotentialConflict <==> !BothWrite(a, b) && Interfere(a, b))
            && (c.Some? && c.value.class_ == ReadOnlyCompatible <==> !Interfere(a, b) && BothUse(a, b))
            && (c.Some? ==> c.value.stepA == a.id && c.value.stepB == b.id && c.value.shared != {})
            && (c.Some? ==> forall r :: r in c.value.shared <==> AboutResource(a, b, c.value.class_, r))
  {
    ClashIsInterference(a, b);
    CommonElement(a.writeSet, b.writeSet);
    CommonElement(a.writeSet, b.readSet);
    CommonElement(b.writeSet, a.readSet);
    var usedA, usedB := SetOf(a.sharedResources) + SetOf(a.readSet), SetOf(b.sharedResources) + SetOf(b.readSet);
    if r :| Uses(a, r) && Uses(b, r) {
      assert r in usedA * usedB;
    }
    if usedA * usedB != {} {
      var r :| r in usedA * usedB;
      assert Uses(a, r) && Uses(b, r);
    }
  }

  /** The pairs with a conflict, each once, in plan order. */
  function ConflictReport(steps: seq<StepData>): seq<Conflict> {
    Report(CheckConflict, steps, |steps|)
  }

  method DetectConflicts(steps: seq<StepData>) returns (conflicts: seq<Conflict>)
    ensures conflicts == ConflictReport(steps)
  {
    conflicts := ReportPairs(CheckConflict, steps);
  }

  /** Exactly the conflicts of some pair are reported. */
  lemma {:induction false} ConflictsReported(steps: seq<StepData>, c: Conflict)
    ensures c in ConflictReport(steps) <==> Said(CheckConflict, steps, |steps|, c)
  {
    ReportMembers(CheckConflict, steps, |steps|, c);
  }

  // ----- running steps -----

  /** What is stored under each resource name; an absent name is an absent resource. */
  type Store<V> = map<string, V>

  function Look<V>(st: Store<V>, r: string): Option<V> {
    if r in st then Some(st[r]) else None
  }

  ghost predicate Agree<V(!new)>(s: Store<V>, t: Store<V>, names: seq<string>, r: string) {
    Look(s, r) == Look(t, r) && forall n :: n in names ==> Look(s, n) == Look(t, n)
  }

  /** The step changes nothing outside its write set, and what it leaves under a name of its write
      set depends only on its read set and on what was there before. */
  ghost predicate Confined<V(!new)>(step: StepData, run: Store<V> -> Store<V>) {
    && (forall st, r :: r !in step.writeSet ==> Look(run(st), r) == Look(st, r))
    && (forall s, t, r :: r in step.writeSet && Agree(s, t, step.readSet, r) ==> Look(run(s), r) == Look(run(t), r))
  }

  lemma LooksEqual<V(!new)>(s: Store<V>, t: Store<V>)
    requires forall r :: Look(s, r) == Look(t, r)
    ensures s == t
  {
    forall r ensures r in s <==> r in t {
      assert Look(s, r) == Look(t, r);
    }
    forall r | r in s ensures s[r] == t[r] {
      assert Look(s, r) == Look(t, r);
    }
  }

  lemma OneSide<V(!new)>(a: StepData, b: StepData, f: Store<V> -> Store<V>, h: Store<V> -> Store<V>,
                                           st: Store<V>, r: string)
    requires Confined(a, f) && Confined(b, h) && !Interfere(a, b) && r !in b.writeSet
    ensures Look(f(h(st)), r) == Look(h(f(st)), r)
  {
    if r in a.writeSet {
      assert Agree(h(st), st, a.readSet, r);
    }
  }

  /** Steps that do not interfere commute on every store. */
  lemma StepsCommute<V(!new)>(a: StepData, b: StepData, f: Store<V> -> Store<V>, h: Store<V> -> Store<V>,
                                                st: Store<V>)
    requires Confined(a, f) && Confined(b, h) && !Interfere(a, b)
    ensures f(h(st)) == h(f(st))
  {
    forall r ensures Look(f(h(st)), r) == Look(h(f(st)), r) {
      if r in b.writeSet {
        OneSide(b, a, h, f, st, r);
      } else {
        OneSide(a, b, f, h, st, r);
      }
    }
    LooksEqual(f(h(st)), h(f(st)));
  }

  ghost predicate ClashFree(steps: seq<StepData>) {
    forall i, j :: 0 <= i < j < |steps| ==> !Clash(steps[i], steps[j])
  }

  lemma NoClashCommutes<V(!new)>(run: StepData -> (Store<V> -> Store<V>), a: StepData, b: StepData)
    requires Confined(a, run(a)) && Confined(b, run(b)) && !Clash(a, b)
    ensures Commute(run, a, b)
  {
    ClashIsInterference(a, b);
    forall st ensures run(a)(run(b)(st)) == run(b)(run(a)(st)) {
      StepsCommute(a, b, run(a), run(b), st);
    }
  }

  /** A clash-free set of steps, each confined to its declared sets, may run in any order. */
  lemma {:induction false} AnyOrderSameStore<V(!new)>(run: StepData -> (Store<V> -> Store<V>), p: seq<StepData>,
                                                     q: seq<StepData>, st: Store<V>)
    requires multiset(p) == multiset(q) && ClashFree(p)
    requires forall s :: s in p ==> Confined(s, run(s))
    ensures RunAll(run, p, st) == RunAll(run, q, st)
  {
    forall i, j | 0 <= i < j < |p| ensures Commute(run, p[i], p[j]) {
      NoClashCommutes(run, p[i], p[j]);
    }
    AnyOrder(run, p, q, st);
  }
}
