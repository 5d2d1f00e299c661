/** Which results are mined, quarantined or skipped, place by place, and what two signals with one key share. */
module MiningProofs {
  import opened Seqs
  import opened Sorting
  import opened FailureMiner
  import Text

  // ----- poison -----

  /** The token stands somewhere in the text, whatever the case of its letters. */
  ghost predicate Names(text: string, token: string) {
    exists i :: 0 <= i <= |text| && token <= Lower(text)[i..]
  }

  ghost predicate NamesPoison(text: string) {
    || Names(text, "override_score") || Names(text, "inject") || Names(text, "bypass")
    || Names(text, "ignore_regression") || Names(text, "disable_validation")
    || Names(text, "auto_approve") || Names(text, "poison")
  }

  ghost predicate Tampered(r: EvaluationResult) {
    || !(0.0 <= r.score <= 100.0)
    || (exists key :: key in r.evidenceKeys && NamesPoison(key))
    || Names(r.caseId.text, "poison")
  }

  lemma LowerAt(s: string, i: nat)
    requires i < |s|
    ensures Lower(s)[i] == if 'A' <= s[i] <= 'Z' then 'a' + (s[i] - 'A') else s[i]
  {
  }

  lemma SuspiciousIff(key: string)
    ensures SuspiciousText(key) <==> NamesPoison(key)
  {
    var p := POISON_KEY_SUBSTRINGS;
    assert p[0] == "override_score" && p[1] == "inject" && p[2] == "bypass" && p[3] == "ignore_regression";
    assert p[4] == "disable_validation" && p[5] == "auto_approve" && p[6] == "poison" && |p| == 7;
    assert forall k :: 0 <= k < |p| ==> (Contains(Lower(key), p[k]) <==> Names(key, p[k]));
  }

  lemma {:induction false} KeyReasonsAre(keys: seq<string>)
    ensures forall reason :: reason in KeyReasons(keys) <==>
      reason.SuspiciousKey? && reason.key in keys && NamesPoison(reason.key)
  {
    if keys != [] {
      KeyReasonsAre(keys[1..]);
      SuspiciousIff(keys[0]);
      assert keys == [keys[0]] + keys[1..];
    }
  }

  /** Each reason is given exactly when it applies, and there is one exactly for tampered results. */
  lemma {:induction false} ReasonsAre(r: EvaluationResult)
    ensures forall reason :: reason in DetectPoisoned(r) <==>
      match reason
      case ScoreOutOfBounds(score) => score == r.score && !(0.0 <= score <= 100.0)
      case SuspiciousKey(key) => key in r.evidenceKeys && NamesPoison(key)
      case SuspiciousCaseId => Names(r.caseId.text, "poison")
      case _ => false
    ensures Poisoned(r) <==> Tampered(r)
  {
    KeyReasonsAre(r.evidenceKeys);
    assert Contains(Lower(r.caseId.text), "poison") <==> Names(r.caseId.text, "poison");
    var reasons := DetectPoisoned(r);
    if reasons != [] {
      assert reasons[0] in reasons;
    }
    if key :| key in r.evidenceKeys && NamesPoison(key) {
      assert SuspiciousKey(key) in reasons;
    }
    if Names(r.caseId.text, "poison") {
      assert SuspiciousCaseId in reasons;
    }
    if !(0.0 <= r.score <= 100.0) {
      assert ScoreOutOfBounds(r.score) in reasons;
    }
  }

  // ----- sanitizing, place by place -----

  /** The first result of this case that is not poisoned stands here. */
  ghost predicate FirstOfCase(results: seq<EvaluationResult>, j: nat, id: CaseId) {
    && j < |results| && results[j].caseId == id && !Poisoned(results[j])
    && forall k :: 0 <= k < j && results[k].caseId == id ==> Poisoned(results[k])
  }

  /** Not poisoned, and of the class of the first such result of its case. */
  ghost predicate CleanAt(results: seq<EvaluationResult>, i: nat)
    requires i < |results|
  {
    && !Poisoned(results[i])
    && forall j: nat :: j < i && FirstOfCase(results, j, results[i].caseId) ==>
         results[j].resultClass == results[i].resultClass
  }

  lemma {:induction false} FirstClassIs(results: seq<EvaluationResult>, id: CaseId)
    ensures FirstClass(results, id).None? ==> forall j: nat :: !FirstOfCase(results, j, id)
    ensures FirstClass(results, id).Some? ==>
      exists j: nat :: FirstOfCase(results, j, id) && results[j].resultClass == FirstClass(results, id).value
    decreases |results|
  {
    if results != [] {
      var rest := results[1..];
      if !Poisoned(results[0]) && results[0].caseId == id {
        assert FirstOfCase(results, 0, id);
      } else {
        FirstClassIs(rest, id);
        forall j: nat ensures j > 0 ==> (FirstOfCase(results, j, id) <==> FirstOfCase(rest, j - 1, id)) {
          FirstLater(results, j, id);
        }
        if FirstClass(rest, id).Some? {
          var j: nat :| FirstOfCase(rest, j, id) && rest[j].resultClass == FirstClass(rest, id).value;
          assert FirstOfCase(results, j + 1, id);
        }
      }
    }
  }

  lemma {:induction false} FirstLater(results: seq<EvaluationResult>, j: nat, id: CaseId)
    requires results != [] && (Poisoned(results[0]) || results[0].caseId != id)
    ensures j > 0 ==> (FirstOfCase(results, j, id) <==> FirstOfCase(results[1..], j - 1, id))
  {
    if j > 0 && FirstOfCase(results, j, id) {
      assert forall k :: 0 <= k < j - 1 ==> results[1..][k] == results[k + 1];
    }
    if j > 0 && FirstOfCase(results[1..], j - 1, id) {
      assert forall k :: 1 <= k < j ==> results[k] == results[1..][k - 1];
    }
  }

  lemma {:induction false} OnlyOneFirst(results: seq<EvaluationResult>, i: nat, j: nat, id: CaseId)
    requires FirstOfCase(results, i, id) && FirstOfCase(results, j, id)
    ensures i == j
  {
  }

  lemma {:induction false} SurvivesIff(results: seq<EvaluationResult>, i: nat)
    requires i < |results|
    ensures Survives(results[..i], results[i]) <==> CleanAt(results, i)
  {
    var id := results[i].caseId;
    FirstClassIs(results[..i], id);
    forall j: nat ensures j < i ==> (FirstOfCase(results[..i], j, id) <==> FirstOfCase(results, j, id)) {
      if j < i {
        FirstOfCaseFront(results, i, j, id);
      }
    }
    if FirstClass(results[..i], id).Some? {
      var j: nat :| FirstOfCase(results[..i], j, id)
        && results[..i][j].resultClass == FirstClass(results[..i], id).value;
      forall k: nat | k < i && FirstOfCase(results, k, id) ensures k == j {
        OnlyOneFirst(results, j, k, id);
      }
    }
  }

  lemma FirstOfCaseFront(results: seq<EvaluationResult>, n: nat, j: nat, id: CaseId)
    requires j < n <= |results|
    ensures FirstOfCase(results[..n], j, id) <==> FirstOfCase(results, j, id)
  {
    assert forall k :: 0 <= k <= j ==> results[..n][k] == results[k];
  }

  /** The places of the clean results. */
  ghost function CleanSet(results: seq<EvaluationResult>): set<nat> {
    set i: nat | i < |results| && CleanAt(results, i)
  }

  /** The other places. */
  ghost function RestSet(results: seq<EvaluationResult>): set<nat> {
    set i: nat | i < |results| && !CleanAt(results, i)
  }

  lemma CleanSetSnoc(front: seq<EvaluationResult>, last: EvaluationResult)
    ensures CleanSet(front + [last]) == CleanSet(front) + if Survives(front, last) then {|front|} else {}
    ensures RestSet(front + [last]) == RestSet(front) + if Survives(front, last) then {} else {|front|}
  {
    var results := front + [last];
    assert results[..|front|] == front;
    SurvivesIff(results, |front|);
    forall i: nat | i < |front| ensures CleanAt(results, i) <==> CleanAt(front, i) {
      var id := front[i].caseId;
      forall j: nat | j < i ensures FirstOfCase(results, j, id) <==> FirstOfCase(front, j, id) {
        FirstOfCaseFront(results, |front|, j, id);
      }
    }
  }

  /** The clean results are those at the clean places, in order. */
  lemma {:induction false} CleanPlaces(results: seq<EvaluationResult>) returns (places: seq<nat>)
    ensures PickedAt(results, CleanOf(results), places) && SetOf(places) == CleanSet(results)
    decreases |results|
  {
    places := [];
    if results != [] {
      var front, last := results[..|results| - 1], results[|results| - 1];
      places := CleanPlaces(front);
      FrontAndLast(results);
      CleanSnoc(front, last);
      CleanSetSnoc(front, last);
      places := PickNext(front, last, CleanOf(front), places, Survives(front, last));
    }
  }

  /** The entry for a result that is not clean. */
  function EntryOf(r: EvaluationResult): QuarantinedResult {
    QuarantinedResult(r.caseId, if Poisoned(r) then DetectPoisoned(r) else [ConflictingDuplicate])
  }

  lemma QuarantinedSnoc(front: seq<EvaluationResult>, last: EvaluationResult)
    ensures QuarantinedOf(front + [last])
         == if Survives(front, last) then QuarantinedOf(front) else QuarantinedOf(front) + [EntryOf(last)]
  {
    CleanSnoc(front, last);
  }

  /** Every other place gives one entry of the quarantine, in order, with the reasons or for the conflict. */
  lemma {:induction false} QuarantinedPlaces(results: seq<EvaluationResult>)
    returns (places: seq<nat>, bad: seq<EvaluationResult>)
    ensures PickedAt(results, bad, places) && QuarantinedOf(results) == Map(EntryOf, bad)
    ensures SetOf(places) == RestSet(results)
    decreases |results|
  {
    places, bad := [], [];
    if results != [] {
      var front, last := results[..|results| - 1], results[|results| - 1];
      places, bad := QuarantinedPlaces(front);
      FrontAndLast(results);
      QuarantinedSnoc(front, last);
      CleanSetSnoc(front, last);
      places := PickNext(front, last, bad, places, !Survives(front, last));
      MapSnoc(EntryOf, bad, last);
      bad := if Survives(front, last) then bad else bad + [last];
    }
  }

  // ----- mining, place by place -----

  predicate FailClass(c: ResultClass) {
    c.text in ["FAIL_CORRECTNESS", "FAIL_REGRESSION", "FAIL_SCOPE", "FAIL_EVIDENCE", "FAIL_TIMEOUT", "FAIL_TOOLING"]
  }

  predicate SkipClass(c: ResultClass) {
    c.text in ["PASS", "BLOCKED_EXTERNAL", "BLOCKED_AMBIGUOUS"]
  }

  /** The signal of a result: its case, class, score and keys, and its failure modes, each once and in order. */
  ghost predicate IsSignal(s: FailureSignal, r: EvaluationResult) {
    && s.caseId == r.caseId && s.resultClass == r.resultClass && s.score == r.score && s.evidenceKeys == r.evidenceKeys
    && SortedBy(Text.StringLe, s.failureModes) && Distinct(s.failureModes)
    && forall m :: m in s.failureModes <==> m in r.failureModes
  }

  lemma SignalIs(r: EvaluationResult)
    ensures IsSignal(SignalOf(r), r)
  {
    SortedStringsSorted(SetOf(r.failureModes));
  }

  lemma ClassesAre(c: ResultClass)
    ensures IsFailure(c) <==> FailClass(c)
    ensures IsKnown(c) <==> FailClass(c) || SkipClass(c)
  {
  }

  /** The signals are those of the clean failures, in order. */
  lemma {:induction false} MinedPlaces(clean: seq<EvaluationResult>)
    returns (places: seq<nat>, mined: seq<EvaluationResult>)
    ensures PickedAt(clean, mined, places) && |SignalsOf(clean)| == |mined|
    ensures forall i :: 0 <= i < |clean| ==> (i in places <==> FailClass(clean[i].resultClass))
    ensures forall k :: 0 <= k < |mined| ==> IsSignal(SignalsOf(clean)[k], mined[k])
    decreases |clean|
  {
    places, mined := [], [];
    if clean != [] {
      var front, last := clean[..|clean| - 1], clean[|clean| - 1];
      places, mined := MinedPlaces(front);
      FrontAndLast(clean);
      PickedSnoc(front, last, mined, places);
      ClassesAre(last.resultClass);
      SignalIs(last);
      if FailClass(last.resultClass) {
        places, mined := places + [|front|], mined + [last];
      }
    }
  }

  function UnknownEntry(r: EvaluationResult): QuarantinedResult {
    QuarantinedResult(r.caseId, [UnknownClass(r.resultClass)])
  }

  /** A clean result of a class nobody knows is quarantined after all, in order. */
  lemma {:induction false} UnknownPlaces(clean: seq<EvaluationResult>)
    returns (places: seq<nat>, unknown: seq<EvaluationResult>)
    ensures PickedAt(clean, unknown, places) && UnknownOf(clean) == Map(UnknownEntry, unknown)
    ensures forall i :: 0 <= i < |clean| ==>
      (i in places <==> !FailClass(clean[i].resultClass) && !SkipClass(clean[i].resultClass))
    decreases |clean|
  {
    places, unknown := [], [];
    if clean != [] {
      var front, last := clean[..|clean| - 1], clean[|clean| - 1];
      places, unknown := UnknownPlaces(front);
      FrontAndLast(clean);
      PickedSnoc(front, last, unknown, places);
      ClassesAre(last.resultClass);
      if !FailClass(last.resultClass) && !SkipClass(last.resultClass) {
        assert Map(UnknownEntry, unknown + [last]) == Map(UnknownEntry, unknown) + [UnknownEntry(last)];
        places, unknown := places + [|front|], unknown + [last];
      }
    }
  }

  // ----- what a signature says -----

  /** The modes the key is made of. */
  function Modes(s: FailureSignal): seq<string> {
    if s.failureModes == [] then ["unknown"] else Sort(Text.StringLe, s.failureModes)
  }

  predicate NoComma(text: string) {
    ',' !in text
  }

  lemma {:induction false} FirstComma(a: string, b: string)
    requires NoComma(a)
    ensures ',' in a + "," + b && IndexOf(a + "," + b, ',') == |a|
    ensures (a + "," + b)[..|a|] == a && (a + "," + b)[|a| + 1..] == b
  {
    var s := a + "," + b;
    assert s[|a|] == ',';
    assert forall k :: 0 <= k < |a| ==> s[k] == a[k] && a[k] in a;
    var i := IndexOf(s, ',');
    assert forall k :: 0 <= k < i ==> s[..i][k] == s[k];
  }

  /** Lists of texts without commas can be read back from their joined text. */
  lemma {:induction false} JoinIsInjective(a: seq<string>, b: seq<string>)
    requires a != [] && b != [] && Text.Join(",", a) == Text.Join(",", b)
    requires forall m :: m in a || m in b ==> NoComma(m)
    ensures a == b
    decreases |a|
  {
    var s := Text.Join(",", a);
    if |a| > 1 {
      FirstComma(a[0], Text.Join(",", a[1..]));
    }
    if |b| > 1 {
      FirstComma(b[0], Text.Join(",", b[1..]));
    }
    if |a| > 1 && |b| > 1 {
      JoinIsInjective(a[1..], b[1..]);
      assert a == [a[0]] + a[1..] && b == [b[0]] + b[1..];
    } else {
      assert |a| == 1 && |b| == 1 by {
        assert NoComma(a[0]) && NoComma(b[0]);
      }
      assert a == [a[0]] && b == [b[0]];
    }
  }

  lemma {:induction false} ModesOfSignature(s: FailureSignal)
    requires NoColon(s.resultClass.text)
    ensures SignatureOf(s).text == s.resultClass.text + ":" + Text.Join(",", Modes(s))
    ensures SignatureOf(s).text[|s.resultClass.text| + 1..] == Text.Join(",", Modes(s))
  {
  }

  /**
   * Signals of failure classes whose modes hold no comma have one signature exactly when they have one class and
   * the same modes, no modes counting as the mode "unknown".
   */
  lemma {:induction false} SameSignatureIff(s: FailureSignal, t: FailureSignal)
    requires FailClass(s.resultClass) && FailClass(t.resultClass)
    requires forall m :: m in Modes(s) || m in Modes(t) ==> NoComma(m)
    ensures SignatureOf(s) == SignatureOf(t) <==> s.resultClass == t.resultClass && Modes(s) == Modes(t)
  {
    ClassesAre(s.resultClass);
    ClassesAre(t.resultClass);
    FailureHasNoColon(s.resultClass);
    FailureHasNoColon(t.resultClass);
    ModesOfSignature(s);
    ModesOfSignature(t);
    if SignatureOf(s) == SignatureOf(t) {
      SameSignatureSameClass(s, t);
      NoModesLost(s);
      NoModesLost(t);
      JoinIsInjective(Modes(s), Modes(t));
    }
  }

  lemma NoModesLost(s: FailureSignal)
    ensures Modes(s) != []
  {
    SortPermutes(Text.StringLe, s.failureModes);
  }

  /** A comma in a mode can hide a difference: one mode "a,b" and two modes "a" and "b". */
  lemma {:induction false} CommaHidesDifference(s: FailureSignal, t: FailureSignal)
    requires s.resultClass == t.resultClass && s.failureModes == ["a,b"] && t.failureModes == ["a", "b"]
    ensures SignatureOf(s) == SignatureOf(t) && s.failureModes != t.failureModes
  {
    assert Sort(Text.StringLe, ["a,b"]) == ["a,b"] by {
      assert ["a,b"][1..] == [];
    }
    assert Sort(Text.StringLe, ["a", "b"]) == ["a", "b"] by {
      assert ["a", "b"][1..] == ["b"] && ["b"][1..] == [];
      assert Sort(Text.StringLe, ["b"]) == ["b"];
    }
    assert ["a", "b"][1..] == ["b"];
    assert Text.Join(",", ["a", "b"]) == "a" + "," + "b" == "a,b";
  }
}
