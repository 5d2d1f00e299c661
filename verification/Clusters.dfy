/** Root-cause clustering of mined failure signals. */
module Clusters {
  import opened Seqs
  import opened FailureMiner
  import opened Grouping
  import opened Sorting
  import Text

  datatype FailureCluster = FailureCluster(
    signature: Signature,
    resultClass: ResultClass,
    failureModes: seq<string>,
    size: nat,
    caseIds: seq<CaseId>,
    avgScore: real)

  function Threshold(minOccurrences: int): nat {
    if minOccurrences > 2 then minOccurrences else 2
  }

  // ----- one group -----

  /** The signals with one key, in input order. */
  function Members(signals: seq<FailureSignal>, key: Signature): seq<FailureSignal> {
    MembersBy(SignatureOf, signals, key)
  }

  /** The keys, in order of first appearance. */
  function Keys(signals: seq<FailureSignal>): seq<Signature> {
    KeysBy(SignatureOf, signals)
  }

  predicate ByCase(a: FailureSignal, b: FailureSignal) {
    Text.StringLe(a.caseId.text, b.caseId.text)
  }

  function Total(scores: seq<real>): real {
    if scores == [] then 0.0 else scores[0] + Total(scores[1..])
  }

  function Mean(scores: seq<real>): real
    requires scores != []
  {
    Total(scores) / |scores| as real
  }

  function ScoreOf(s: FailureSignal): real {
    s.score
  }

  function ModesOf(members: seq<FailureSignal>): set<string> {
    set s, m | s in members && m in s.failureModes :: m
  }

  function ClusterOf(key: Signature, members: seq<FailureSignal>): FailureCluster
    requires members != []
  {
    SortPermutes(ByCase, members);
    var ordered := Sort(ByCase, members);
    FailureCluster(
      key,
      ordered[0].resultClass,
      SortedStrings(ModesOf(ordered)),
      |ordered|,
      Map(SignalCase, ordered),
      Mean(Map(ScoreOf, ordered)))
  }

  // ----- all groups -----

  /** Largest first, then by key. */
  predicate ClusterLe(a: FailureCluster, b: FailureCluster) {
    a.size > b.size || (a.size == b.size && Text.StringLe(a.signature.text, b.signature.text))
  }

  predicate Recurs(signals: seq<FailureSignal>, minOccurrences: int, key: Signature) {
    |Members(signals, key)| >= Threshold(minOccurrences)
  }

  function RawClusters(signals: seq<FailureSignal>, minOccurrences: int, keys: seq<Signature>): seq<FailureCluster> {
    if keys == [] then [] else
      (if Recurs(signals, minOccurrences, keys[0]) then [ClusterOf(keys[0], Members(signals, keys[0]))] else [])
      + RawClusters(signals, minOccurrences, keys[1..])
  }

  function RawIgnored(signals: seq<FailureSignal>, minOccurrences: int, keys: seq<Signature>): seq<FailureSignal> {
    if keys == [] then [] else
      (if Recurs(signals, minOccurrences, keys[0]) then [] else Members(signals, keys[0]))
      + RawIgnored(signals, minOccurrences, keys[1..])
  }

  function ClustersOf(signals: seq<FailureSignal>, minOccurrences: int): seq<FailureCluster> {
    Sort(ClusterLe, RawClusters(signals, minOccurrences, Keys(signals)))
  }

  function IgnoredOf(signals: seq<FailureSignal>, minOccurrences: int): seq<FailureSignal> {
    Sort(ByCase, RawIgnored(signals, minOccurrences, Keys(signals)))
  }

  lemma {:induction false} MembersFacts(signals: seq<FailureSignal>, key: Signature)
    ensures forall s :: s in Members(signals, key) <==> s in signals && SignatureOf(s) == key
    ensures Members(signals, key) != [] <==> key in Keys(signals)
    decreases |signals|
  {
    if signals != [] {
      var front, last := signals[..|signals| - 1], signals[|signals| - 1];
      assert signals == front + [last];
      MembersFacts(front, key);
    }
  }

  lemma {:induction false} KeysDistinct(signals: seq<FailureSignal>)
    ensures Distinct(Keys(signals))
    ensures forall key :: key in Keys(signals) <==> exists s :: s in signals && SignatureOf(s) == key
    decreases |signals|
  {
    if signals != [] {
      var front, last := signals[..|signals| - 1], signals[|signals| - 1];
      assert signals == front + [last];
      KeysDistinct(front);
      assert last in signals;
    }
  }

  lemma {:induction false} ClustersConcat(signals: seq<FailureSignal>, minOccurrences: int, a: seq<Signature>,
                                          b: seq<Signature>)
    ensures RawClusters(signals, minOccurrences, a + b)
      == RawClusters(signals, minOccurrences, a) + RawClusters(signals, minOccurrences, b)
  {
    if a == [] {
      NilLeft(b);
      NilLeft(RawClusters(signals, minOccurrences, b));
    } else {
      ConsConcat(a, b);
      ClustersConcat(signals, minOccurrences, a[1..], b);
      Associate(if Recurs(signals, minOccurrences, a[0]) then [ClusterOf(a[0], Members(signals, a[0]))] else [],
                RawClusters(signals, minOccurrences, a[1..]), RawClusters(signals, minOccurrences, b));
    }
  }

  lemma {:induction false} IgnoredConcat(signals: seq<FailureSignal>, minOccurrences: int, a: seq<Signature>,
                                         b: seq<Signature>)
    ensures RawIgnored(signals, minOccurrences, a + b)
      == RawIgnored(signals, minOccurrences, a) + RawIgnored(signals, minOccurrences, b)
  {
    if a == [] {
      NilLeft(b);
      NilLeft(RawIgnored(signals, minOccurrences, b));
    } else {
      ConsConcat(a, b);
      IgnoredConcat(signals, minOccurrences, a[1..], b);
      Associate(if Recurs(signals, minOccurrences, a[0]) then [] else Members(signals, a[0]),
                RawIgnored(signals, minOccurrences, a[1..]), RawIgnored(signals, minOccurrences, b));
    }
  }

  lemma {:induction false} RawOne(signals: seq<FailureSignal>, minOccurrences: int, key: Signature)
    ensures RawClusters(signals, minOccurrences, [key])
         == if Recurs(signals, minOccurrences, key) then [ClusterOf(key, Members(signals, key))] else []
    ensures RawIgnored(signals, minOccurrences, [key])
         == if Recurs(signals, minOccurrences, key) then [] else Members(signals, key)
  {
    assert [key][1..] == [];
    NilLeft(Members(signals, key));
  }

  /** One group is either a cluster or ignored. */
  lemma {:induction false} SplitStep(signals: seq<FailureSignal>, minOccurrences: int, front: seq<Signature>,
                                     key: Signature)
    ensures RawClusters(signals, minOccurrences, front + [key])
         == if Recurs(signals, minOccurrences, key)
            then RawClusters(signals, minOccurrences, front) + [ClusterOf(key, Members(signals, key))]
            else RawClusters(signals, minOccurrences, front)
    ensures RawIgnored(signals, minOccurrences, front + [key])
         == if Recurs(signals, minOccurrences, key)
            then RawIgnored(signals, minOccurrences, front)
            else RawIgnored(signals, minOccurrences, front) + Members(signals, key)
  {
    ClustersConcat(signals, minOccurrences, front, [key]);
    IgnoredConcat(signals, minOccurrences, front, [key]);
    RawOne(signals, minOccurrences, key);
    NilLeft(RawClusters(signals, minOccurrences, front));
    NilLeft(RawIgnored(signals, minOccurrences, front));
  }

  method ClusterSignals(signals: seq<FailureSignal>, minOccurrences: int)
    returns (clusters: seq<FailureCluster>, ignored: seq<FailureSignal>)
    ensures clusters == ClustersOf(signals, minOccurrences)
    ensures ignored == IgnoredOf(signals, minOccurrences)
  {
    var keys, grouped := GroupBy(SignatureOf, signals);
    clusters, ignored := [], [];
    for k := 0 to |keys|
      invariant clusters == RawClusters(signals, minOccurrences, keys[..k])
      invariant ignored == RawIgnored(signals, minOccurrences, keys[..k])
    {
      var members := grouped[keys[k]];
      assert members == Entry(grouped, keys[k]) == Members(signals, keys[k]);
      SplitStep(signals, minOccurrences, keys[..k], keys[k]);
      TakeMore(keys, k);
      if |members| < Threshold(minOccurrences) {
        ignored := ignored + members;
      } else {
        clusters := clusters + [ClusterOf(keys[k], members)];
      }
    }
    assert keys[..|keys|] == keys;
    clusters := Sort(ClusterLe, clusters);
    ignored := Sort(ByCase, ignored);
  }
}
