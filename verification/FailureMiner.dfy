/** Failure mining: poisoned results out, clean failures in. */
module FailureMiner {
  import opened Seqs
  import Sorting
  import Text

  datatype CaseId = CaseId(text: string)
  datatype ResultClass = ResultClass(text: string)
  datatype Signature = Signature(text: string)

  datatype EvaluationResult = EvaluationResult(
    caseId: CaseId,
    resultClass: ResultClass,
    failureModes: seq<string>,
    score: real,
    evidenceKeys: seq<string>)

  datatype FailureSignal = FailureSignal(
    caseId: CaseId,
    resultClass: ResultClass,
    failureModes: seq<string>,
    score: real,
    evidenceKeys: seq<string>)

  datatype Reason =
    | ScoreOutOfBounds(score: real)
    | SuspiciousKey(key: string)
    | SuspiciousCaseId
    | ConflictingDuplicate
    | UnknownClass(resultClass: ResultClass)

  datatype QuarantinedResult = QuarantinedResult(caseId: CaseId, reasons: seq<Reason>)

  const POISON_KEY_SUBSTRINGS: seq<string> := [
    "override_score", "inject", "bypass", "ignore_regression", "disable_validation", "auto_approve", "poison"]

  const FAIL_CLASSES: set<string> := {
    "FAIL_CORRECTNESS", "FAIL_REGRESSION", "FAIL_SCOPE", "FAIL_EVIDENCE", "FAIL_TIMEOUT", "FAIL_TOOLING"}

  const OTHER_CLASSES: set<string> := {"PASS", "BLOCKED_EXTERNAL", "BLOCKED_AMBIGUOUS"}

  // ----- poison detection -----

  /** `str.lower()` on ASCII letters. */
  function Lower(s: string): string {
    seq(|s|, i requires 0 <= i < |s| => if 'A' <= s[i] <= 'Z' then (s[i] as int + 32) as char else s[i])
  }

  predicate Contains(text: string, token: string) {
    exists i :: 0 <= i <= |text| && token <= text[i..]
  }

  predicate SuspiciousText(key: string) {
    exists k :: 0 <= k < |POISON_KEY_SUBSTRINGS| && Contains(Lower(key), POISON_KEY_SUBSTRINGS[k])
  }

  function KeyReasons(keys: seq<string>): seq<Reason> {
    if keys == [] then [] else
      (if SuspiciousText(keys[0]) then [SuspiciousKey(keys[0])] else []) + KeyReasons(keys[1..])
  }

  function DetectPoisoned(r: EvaluationResult): seq<Reason> {
    (if r.score < 0.0 || r.score > 100.0 then [ScoreOutOfBounds(r.score)] else [])
    + KeyReasons(r.evidenceKeys)
    + (if Contains(Lower(r.caseId.text), "poison") then [SuspiciousCaseId] else [])
  }

  predicate Poisoned(r: EvaluationResult) {
    DetectPoisoned(r) != []
  }

  // ----- sanitizing -----

  /** The class of the first result with this case id that is not poisoned. */
  function FirstClass(results: seq<EvaluationResult>, id: CaseId): Option<ResultClass>
    decreases |results|
  {
    if results == [] then None
    else if !Poisoned(results[0]) && results[0].caseId == id then Some(results[0].resultClass)
    else FirstClass(results[1..], id)
  }

  /** A result survives unless it is poisoned or disagrees with the first clean one of its case. */
  predicate Survives(earlier: seq<EvaluationResult>, r: EvaluationResult) {
    !Poisoned(r) && (FirstClass(earlier, r.caseId).None? || FirstClass(earlier, r.caseId) == Some(r.resultClass))
  }

  function CleanOf(results: seq<EvaluationResult>): seq<EvaluationResult>
    decreases |results|
  {
    if results == [] then [] else
      var front, last := results[..|results| - 1], results[|results| - 1];
      CleanOf(front) + if Survives(front, last) then [last] else []
  }

  function QuarantinedOf(results: seq<EvaluationResult>): seq<QuarantinedResult>
    decreases |results|
  {
    if results == [] then [] else
      var front, last := results[..|results| - 1], results[|results| - 1];
      QuarantinedOf(front) +
        if Poisoned(last) then [QuarantinedResult(last.caseId, DetectPoisoned(last))]
        else if !Survives(front, last) then [QuarantinedResult(last.caseId, [ConflictingDuplicate])]
        else []
  }

  lemma {:induction false} FirstClassSnoc(front: seq<EvaluationResult>, last: EvaluationResult, id: CaseId)
    ensures FirstClass(front + [last], id) ==
      if FirstClass(front, id).Some? then FirstClass(front, id)
      else if !Poisoned(last) && last.caseId == id then Some(last.resultClass) else None
  {
    if front != [] {
      assert (front + [last])[1..] == front[1..] + [last];
      FirstClassSnoc(front[1..], last, id);
    }
  }

  function ClassIn(seen: map<CaseId, EvaluationResult>, id: CaseId): Option<ResultClass> {
    if id in seen then Some(seen[id].resultClass) else None
  }

  /** The variables of the loop after these results. */
  ghost predicate Sanitized(results: seq<EvaluationResult>, clean: seq<EvaluationResult>,
                            quarantined: seq<QuarantinedResult>, seen: map<CaseId, EvaluationResult>) {
    && clean == CleanOf(results) && quarantined == QuarantinedOf(results)
    && forall id :: FirstClass(results, id) == ClassIn(seen, id)
  }

  lemma {:induction false} CleanSnoc(front: seq<EvaluationResult>, last: EvaluationResult)
    ensures CleanOf(front + [last]) == if Survives(front, last) then CleanOf(front) + [last] else CleanOf(front)
    ensures QuarantinedOf(front + [last])
         == if Poisoned(last) then QuarantinedOf(front) + [QuarantinedResult(last.caseId, DetectPoisoned(last))]
            else if !Survives(front, last)
            then QuarantinedOf(front) + [QuarantinedResult(last.caseId, [ConflictingDuplicate])]
            else QuarantinedOf(front)
  {
    TakeAll(front, last);
    NilLeft(CleanOf(front));
    NilLeft(QuarantinedOf(front));
  }

  lemma {:induction false} SeenAfter(front: seq<EvaluationResult>, last: EvaluationResult,
                                     seen: map<CaseId, EvaluationResult>)
    requires forall id :: FirstClass(front, id) == ClassIn(seen, id)
    ensures forall id :: FirstClass(front + [last], id)
                      == ClassIn(if Survives(front, last) then seen[last.caseId := last] else seen, id)
  {
    forall id ensures FirstClass(front + [last], id)
                   == ClassIn(if Survives(front, last) then seen[last.caseId := last] else seen, id)
    {
      FirstClassSnoc(front, last, id);
    }
  }

  /** What one result does to the variables of the loop. */
  lemma {:induction false} SanitizedAt(results: seq<EvaluationResult>, i: nat, clean: seq<EvaluationResult>,
                                      quarantined: seq<QuarantinedResult>, seen: map<CaseId, EvaluationResult>)
    requires i < |results| && Sanitized(results[..i], clean, quarantined, seen)
    ensures var r := results[i];
            var conflict := r.caseId in seen && seen[r.caseId].resultClass != r.resultClass;
            if Poisoned(r) then
              Sanitized(results[..i + 1], clean, quarantined + [QuarantinedResult(r.caseId, DetectPoisoned(r))], seen)
            else if conflict then
              Sanitized(results[..i + 1], clean,
                        quarantined + [QuarantinedResult(r.caseId, [ConflictingDuplicate])], seen)
            else
              Sanitized(results[..i + 1], clean + [r], quarantined, seen[r.caseId := r])
  {
    var r := results[i];
    CleanSnoc(results[..i], r);
    SeenAfter(results[..i], r, seen);
    assert FirstClass(results[..i], r.caseId) == ClassIn(seen, r.caseId);
    TakeMore(results, i);
  }

  method SanitizeResults(results: seq<EvaluationResult>)
    returns (clean: seq<EvaluationResult>, quarantined: seq<QuarantinedResult>)
    ensures clean == CleanOf(results) && quarantined == QuarantinedOf(results)
  {
    clean, quarantined := [], [];
    var seen: map<CaseId, EvaluationResult> := map[];
    for i := 0 to |results|
      invariant Sanitized(results[..i], clean, quarantined, seen)
    {
      var result := results[i];
      SanitizedAt(results, i, clean, quarantined, seen);
      var reasons := DetectPoisoned(result);
      if reasons != [] {
        quarantined := quarantined + [QuarantinedResult(result.caseId, reasons)];
      } else if result.caseId in seen && seen[result.caseId].resultClass != result.resultClass {
        quarantined := quarantined + [QuarantinedResult(result.caseId, [ConflictingDuplicate])];
      } else {
        seen := seen[result.caseId := result];
        clean := clean + [result];
      }
    }
    assert results[..|results|] == results;
  }

  /** Whatever survives carries the class the whole input gives its case. */
  lemma {:induction false} CleanHasFirstClass(results: seq<EvaluationResult>, r: EvaluationResult)
    requires r in CleanOf(results)
    ensures r in results && !Poisoned(r) && FirstClass(results, r.caseId) == Some(r.resultClass)
    decreases |results|
  {
    var front, last := results[..|results| - 1], results[|results| - 1];
    assert results == front + [last];
    FirstClassSnoc(front, last, r.caseId);
    if r in CleanOf(front) {
      CleanHasFirstClass(front, r);
    }
  }

  /** Clean results of one case agree on their class. */
  lemma {:induction false} CleanCasesAgree(results: seq<EvaluationResult>, r: EvaluationResult, q: EvaluationResult)
    requires r in CleanOf(results) && q in CleanOf(results) && r.caseId == q.caseId
    ensures r.resultClass == q.resultClass
  {
    CleanHasFirstClass(results, r);
    CleanHasFirstClass(results, q);
  }

  // ----- mining -----

  predicate IsFailure(c: ResultClass) {
    c.text in FAIL_CLASSES
  }

  predicate IsKnown(c: ResultClass) {
    c.text in FAIL_CLASSES || c.text in OTHER_CLASSES
  }

  function SignalOf(r: EvaluationResult): FailureSignal {
    FailureSignal(r.caseId, r.resultClass, Sorting.SortedStrings(SetOf(r.failureModes)), r.score, r.evidenceKeys)
  }

  function SignalsOf(clean: seq<EvaluationResult>): (r: seq<FailureSignal>)
    ensures forall s :: s in r ==> IsFailure(s.resultClass)
    decreases |clean|
  {
    if clean == [] then [] else
      var front, last := clean[..|clean| - 1], clean[|clean| - 1];
      SignalsOf(front) + if IsFailure(last.resultClass) then [SignalOf(last)] else []
  }

  function UnknownOf(clean: seq<EvaluationResult>): seq<QuarantinedResult>
    decreases |clean|
  {
    if clean == [] then [] else
      var front, last := clean[..|clean| - 1], clean[|clean| - 1];
      UnknownOf(front) +
        if IsKnown(last.resultClass) then [] else [QuarantinedResult(last.caseId, [UnknownClass(last.resultClass)])]
  }

  function Signals(results: seq<EvaluationResult>): seq<FailureSignal> {
    SignalsOf(CleanOf(results))
  }

  /** What one clean result adds. */
  lemma {:induction false} MinedAt(clean: seq<EvaluationResult>, i: nat)
    requires i < |clean|
    ensures SignalsOf(clean[..i + 1])
         == if IsFailure(clean[i].resultClass)
            then SignalsOf(clean[..i]) + [SignalOf(clean[i])] else SignalsOf(clean[..i])
    ensures UnknownOf(clean[..i + 1])
         == if IsKnown(clean[i].resultClass) then UnknownOf(clean[..i])
            else UnknownOf(clean[..i]) + [QuarantinedResult(clean[i].caseId, [UnknownClass(clean[i].resultClass)])]
  {
    TakeMore(clean, i);
    TakeAll(clean[..i], clean[i]);
    NilLeft(SignalsOf(clean[..i]));
    NilLeft(UnknownOf(clean[..i]));
  }

  method MineFailures(results: seq<EvaluationResult>)
    returns (signals: seq<FailureSignal>, quarantined: seq<QuarantinedResult>)
    ensures signals == Signals(results)
    ensures quarantined == QuarantinedOf(results) + UnknownOf(CleanOf(results))
  {
    var clean;
    clean, quarantined := SanitizeResults(results);
    signals := [];
    NilLeft(quarantined);
    for i := 0 to |clean|
      invariant signals == SignalsOf(clean[..i])
      invariant quarantined == QuarantinedOf(results) + UnknownOf(clean[..i])
    {
      MinedAt(clean, i);
      if !IsKnown(clean[i].resultClass) {
        var entry := QuarantinedResult(clean[i].caseId, [UnknownClass(clean[i].resultClass)]);
        Associate(QuarantinedOf(results), UnknownOf(clean[..i]), [entry]);
        quarantined := quarantined + [entry];
      } else if IsFailure(clean[i].resultClass) {
        signals := signals + [SignalOf(clean[i])];
      }
    }
    assert clean[..|clean|] == clean;
  }

  // ----- accounting -----

  /** The clean results mining has nothing to learn from: passed or blocked. */
  function SkippedOf(clean: seq<EvaluationResult>): (r: seq<EvaluationResult>)
    ensures forall s :: s in r ==> s in clean && s.resultClass.text in OTHER_CLASSES
    decreases |clean|
  {
    if clean == [] then [] else
      var front, last := clean[..|clean| - 1], clean[|clean| - 1];
      assert clean == front + [last];
      SkippedOf(front) + if last.resultClass.text in OTHER_CLASSES then [last] else []
  }

  /** The case ids of a list, each as often as it occurs. */
  function CaseIds<T>(caseOf: T -> CaseId, s: seq<T>): multiset<CaseId> {
    if s == [] then multiset{} else CaseIds(caseOf, s[..|s| - 1]) + multiset{caseOf(s[|s| - 1])}
  }

  function ResultCase(r: EvaluationResult): CaseId {
    r.caseId
  }

  function SignalCase(s: FailureSignal): CaseId {
    s.caseId
  }

  function QuarantineCase(q: QuarantinedResult): CaseId {
    q.caseId
  }

  /** How often a case id occurs in a list. */
  function Count<T>(caseOf: T -> CaseId, s: seq<T>, id: CaseId): nat {
    if s == [] then 0 else Count(caseOf, s[..|s| - 1], id) + if caseOf(s[|s| - 1]) == id then 1 else 0
  }

  lemma {:induction false} CountIs<T>(caseOf: T -> CaseId, s: seq<T>, id: CaseId)
    ensures CaseIds(caseOf, s)[id] == Count(caseOf, s, id)
  {
    if s != [] {
      CountIs(caseOf, s[..|s| - 1], id);
    }
  }

  lemma {:induction false} CountSnoc<T>(caseOf: T -> CaseId, front: seq<T>, last: T, id: CaseId)
    ensures Count(caseOf, front + [last], id) == Count(caseOf, front, id) + if caseOf(last) == id then 1 else 0
  {
    TakeAll(front, last);
  }

  lemma {:induction false} CountConcat<T>(caseOf: T -> CaseId, a: seq<T>, b: seq<T>, id: CaseId)
    ensures Count(caseOf, a + b, id) == Count(caseOf, a, id) + Count(caseOf, b, id)
    decreases |b|
  {
    if b == [] {
      NilLeft(a);
    } else {
      var front, last := b[..|b| - 1], b[|b| - 1];
      CountConcat(caseOf, a, front, id);
      CountSnoc(caseOf, a + front, last, id);
      Associate(a, front, [last]);
      FrontAndLast(b);
    }
  }

  /** Sanitizing splits the results: each case id ends up among the clean or the quarantined as often as it came. */
  lemma {:induction false} SanitizeAccounts(results: seq<EvaluationResult>, id: CaseId)
    ensures Count(ResultCase, CleanOf(results), id) + Count(QuarantineCase, QuarantinedOf(results), id)
         == Count(ResultCase, results, id)
    decreases |results|
  {
    if results != [] {
      var front, last := results[..|results| - 1], results[|results| - 1];
      SanitizeAccounts(front, id);
      FrontAndLast(results);
      CleanSnoc(front, last);
      CountSnoc(ResultCase, CleanOf(front), last, id);
      CountSnoc(QuarantineCase, QuarantinedOf(front), QuarantinedResult(last.caseId, DetectPoisoned(last)), id);
      CountSnoc(QuarantineCase, QuarantinedOf(front), QuarantinedResult(last.caseId, [ConflictingDuplicate]), id);
    }
  }

  /** A clean result is a failure, of an unknown class, or skipped, and only one of these. */
  lemma OneOfThree(c: ResultClass)
    ensures IsFailure(c) ==> IsKnown(c) && c.text !in OTHER_CLASSES
    ensures !IsKnown(c) ==> c.text !in OTHER_CLASSES
    ensures !IsFailure(c) && IsKnown(c) ==> c.text in OTHER_CLASSES
  {
    assert IsFailure(c) ==> |c.text| > 0 && c.text[0] == 'F';
  }

  lemma {:induction false} SkippedSnoc(front: seq<EvaluationResult>, last: EvaluationResult)
    ensures SkippedOf(front + [last])
         == if last.resultClass.text in OTHER_CLASSES then SkippedOf(front) + [last] else SkippedOf(front)
  {
    TakeAll(front, last);
    NilLeft(SkippedOf(front));
  }

  lemma {:induction false} MinedSnoc(front: seq<EvaluationResult>, last: EvaluationResult, id: CaseId)
    ensures Count(SignalCase, SignalsOf(front + [last]), id)
         == Count(SignalCase, SignalsOf(front), id) + if IsFailure(last.resultClass) && last.caseId == id then 1 else 0
    ensures Count(QuarantineCase, UnknownOf(front + [last]), id)
         == Count(QuarantineCase, UnknownOf(front), id)
          + if !IsKnown(last.resultClass) && last.caseId == id then 1 else 0
    ensures Count(ResultCase, SkippedOf(front + [last]), id)
         == Count(ResultCase, SkippedOf(front), id)
            + if last.resultClass.text in OTHER_CLASSES && last.caseId == id then 1 else 0
  {
    MinedAt(front + [last], |front|);
    TakeAll(front, last);
    assert (front + [last])[..|front| + 1] == front + [last];
    SkippedSnoc(front, last);
    CountSnoc(SignalCase, SignalsOf(front), SignalOf(last), id);
    CountSnoc(QuarantineCase, UnknownOf(front), QuarantinedResult(last.caseId, [UnknownClass(last.resultClass)]), id);
    CountSnoc(ResultCase, SkippedOf(front), last, id);
  }

  /** Mining splits the clean results in three. */
  lemma {:induction false} CleanAccounts(clean: seq<EvaluationResult>, id: CaseId)
    ensures Count(SignalCase, SignalsOf(clean), id) + Count(QuarantineCase, UnknownOf(clean), id)
          + Count(ResultCase, SkippedOf(clean), id)
         == Count(ResultCase, clean, id)
    decreases |clean|
  {
    if clean != [] {
      var front, last := clean[..|clean| - 1], clean[|clean| - 1];
      CleanAccounts(front, id);
      FrontAndLast(clean);
      MinedSnoc(front, last, id);
      OneOfThree(last.resultClass);
      CountSnoc(ResultCase, front, last, id);
    }
  }

  /** Every result is mined, quarantined or skipped exactly once: the three lists hold each case id as often
      as the results do. */
  lemma {:induction false} MiningAccounts(results: seq<EvaluationResult>)
    ensures CaseIds(SignalCase, Signals(results))
          + CaseIds(QuarantineCase, QuarantinedOf(results) + UnknownOf(CleanOf(results)))
          + CaseIds(ResultCase, SkippedOf(CleanOf(results)))
         == CaseIds(ResultCase, results)
  {
    var clean := CleanOf(results);
    var quarantined := QuarantinedOf(results) + UnknownOf(clean);
    forall id
      ensures CaseIds(SignalCase, Signals(results))[id] + CaseIds(QuarantineCase, quarantined)[id]
            + CaseIds(ResultCase, SkippedOf(clean))[id]
           == CaseIds(ResultCase, results)[id]
    {
      SanitizeAccounts(results, id);
      CleanAccounts(clean, id);
      CountConcat(QuarantineCase, QuarantinedOf(results), UnknownOf(clean), id);
      CountIs(SignalCase, Signals(results), id);
      CountIs(QuarantineCase, quarantined, id);
      CountIs(ResultCase, SkippedOf(clean), id);
      CountIs(ResultCase, results, id);
    }
    PointwiseSum(CaseIds(SignalCase, Signals(results)), CaseIds(QuarantineCase, quarantined),
                 CaseIds(ResultCase, SkippedOf(clean)), CaseIds(ResultCase, results));
  }

  lemma PointwiseSum(a: multiset<CaseId>, b: multiset<CaseId>, c: multiset<CaseId>, d: multiset<CaseId>)
    requires forall id :: a[id] + b[id] + c[id] == d[id]
    ensures a + b + c == d
  {
  }

  // ----- signatures -----

  function ModesText(s: FailureSignal): string {
    Text.Join(",", if s.failureModes == [] then ["unknown"] else Sorting.Sort(Text.StringLe, s.failureModes))
  }

  /** The grouping key: class and sorted failure modes. */
  function SignatureOf(s: FailureSignal): Signature {
    Signature(s.resultClass.text + ":" + ModesText(s))
  }

  predicate NoColon(text: string) {
    ':' !in text
  }

  /** A class without a colon can be read back from the key. */
  lemma {:induction false} ClassIsPrefix(c: string, modes: string)
    requires NoColon(c)
    ensures ':' in c + ":" + modes && c == (c + ":" + modes)[..IndexOf(c + ":" + modes, ':')]
  {
    var s := c + ":" + modes;
    assert s[|c|] == ':';
    assert forall k :: 0 <= k < |c| ==> s[k] == c[k] && c[k] != ':';
    var i := IndexOf(s, ':');
    assert forall k :: 0 <= k < i ==> s[..i][k] == s[k];
    assert i == |c|;
  }

  lemma NoColonInFirst(text: string)
    requires text in {"FAIL_CORRECTNESS", "FAIL_REGRESSION", "FAIL_SCOPE"}
    ensures NoColon(text)
  {
  }

  lemma NoColonInSecond(text: string)
    requires text in {"FAIL_EVIDENCE", "FAIL_TIMEOUT", "FAIL_TOOLING"}
    ensures NoColon(text)
  {
  }

  lemma FailureHasNoColon(c: ResultClass)
    requires IsFailure(c)
    ensures NoColon(c.text)
  {
    if c.text in {"FAIL_CORRECTNESS", "FAIL_REGRESSION", "FAIL_SCOPE"} {
      NoColonInFirst(c.text);
    } else {
      NoColonInSecond(c.text);
    }
  }

  /** Mined signals with the same key have the same class. */
  lemma SameSignatureSameClass(s: FailureSignal, t: FailureSignal)
    requires IsFailure(s.resultClass) && IsFailure(t.resultClass) && SignatureOf(s) == SignatureOf(t)
    ensures s.resultClass == t.resultClass
  {
    FailureHasNoColon(s.resultClass);
    FailureHasNoColon(t.resultClass);
    ClassIsPrefix(s.resultClass.text, ModesText(s));
    ClassIsPrefix(t.resultClass.text, ModesText(t));
  }
}
