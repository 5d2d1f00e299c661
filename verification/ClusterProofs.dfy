/** Clustering is a partition of the signals, and does not depend on their order. */
module ClusterProofs {
  import opened Seqs
  import opened FailureMiner
  import Grouping
  import opened Sorting
  import opened Clusters
  import Text

  // ----- the partition -----

  function Sum(sizes: seq<nat>): nat {
    if sizes == [] then 0 else sizes[0] + Sum(sizes[1..])
  }

  function Sizes(clusters: seq<FailureCluster>): seq<nat> {
    Map((c: FailureCluster) => c.size, clusters)
  }

  lemma {:induction false} SumConcat(a: seq<nat>, b: seq<nat>)
    ensures Sum(a + b) == Sum(a) + Sum(b)
  {
    if a == [] {
      assert a + b == b;
    } else {
      assert (a + b)[1..] == a[1..] + b;
      SumConcat(a[1..], b);
    }
  }

  lemma {:induction false} SumPermutes(a: seq<nat>, b: seq<nat>)
    requires multiset(a) == multiset(b)
    ensures Sum(a) == Sum(b)
    decreases |a|
  {
    assert |a| == |multiset(a)| == |multiset(b)| == |b|;
    if a != [] {
      var i := HeadOut(a, b);
      SumPermutes(a[1..], b[..i] + b[i + 1..]);
      SumConcat(b[..i], b[i + 1..]);
      SumConcat(b[..i], [a[0]] + b[i + 1..]);
    }
  }

  lemma {:induction false} TotalConcat(a: seq<real>, b: seq<real>)
    ensures Total(a + b) == Total(a) + Total(b)
  {
    if a == [] {
      assert a + b == b;
    } else {
      assert (a + b)[1..] == a[1..] + b;
      TotalConcat(a[1..], b);
    }
  }

  lemma {:induction false} TotalPermutes(a: seq<real>, b: seq<real>)
    requires multiset(a) == multiset(b)
    ensures Total(a) == Total(b)
    decreases |a|
  {
    assert |a| == |multiset(a)| == |multiset(b)| == |b|;
    if a != [] {
      var i := HeadOut(a, b);
      TotalPermutes(a[1..], b[..i] + b[i + 1..]);
      TotalConcat(b[..i], b[i + 1..]);
      TotalConcat(b[..i], [a[0]] + b[i + 1..]);
    }
  }

  /** The members of the listed keys, counted together. */
  function MemberCount(signals: seq<FailureSignal>, keys: seq<Signature>): nat {
    if keys == [] then 0 else |Members(signals, keys[0])| + MemberCount(signals, keys[1..])
  }

  lemma {:induction false} MemberCountSnoc(front: seq<FailureSignal>, last: FailureSignal, keys: seq<Signature>)
    requires Distinct(keys)
    ensures MemberCount(front + [last], keys) == MemberCount(front, keys) + if SignatureOf(last) in keys then 1 else 0
  {
    if keys != [] {
      assert (front + [last])[..|front|] == front;
      MemberCountSnoc(front, last, keys[1..]);
      assert keys == [keys[0]] + keys[1..];
    }
  }

  /** Each signal is counted once, under its own key. */
  lemma {:induction false} EverySignalCounted(signals: seq<FailureSignal>, keys: seq<Signature>)
    requires Distinct(keys) && forall s :: s in signals ==> SignatureOf(s) in keys
    ensures MemberCount(signals, keys) == |signals|
    decreases |signals|
  {
    if signals == [] {
      NoMembers(keys);
    } else {
      var front, last := signals[..|signals| - 1], signals[|signals| - 1];
      assert signals == front + [last];
      EverySignalCounted(front, keys);
      MemberCountSnoc(front, last, keys);
    }
  }

  lemma {:induction false} NoMembers(keys: seq<Signature>)
    ensures MemberCount([], keys) == 0
  {
    if keys != [] {
      NoMembers(keys[1..]);
    }
  }

  lemma {:induction false} RawPartition(signals: seq<FailureSignal>, minOccurrences: int, keys: seq<Signature>)
    ensures Sum(Sizes(RawClusters(signals, minOccurrences, keys))) + |RawIgnored(signals, minOccurrences, keys)|
      == MemberCount(signals, keys)
  {
    if keys != [] {
      RawPartition(signals, minOccurrences, keys[1..]);
      var rest := RawClusters(signals, minOccurrences, keys[1..]);
      if Recurs(signals, minOccurrences, keys[0]) {
        SortPermutes(ByCase, Members(signals, keys[0]));
        SizesCons(ClusterOf(keys[0], Members(signals, keys[0])), rest);
      } else {
        assert [] + rest == rest;
      }
    }
  }

  lemma SizesCons(c: FailureCluster, rest: seq<FailureCluster>)
    ensures Sum(Sizes([c] + rest)) == c.size + Sum(Sizes(rest))
  {
    assert Sizes([c] + rest)[1..] == Sizes(rest);
  }

  /** Cluster sizes and ignored signals together account for every signal. */
  lemma ClusteringPartitions(signals: seq<FailureSignal>, minOccurrences: int)
    ensures Sum(Sizes(ClustersOf(signals, minOccurrences))) + |IgnoredOf(signals, minOccurrences)| == |signals|
  {
    var keys := Keys(signals);
    var raw := RawClusters(signals, minOccurrences, keys);
    KeysDistinct(signals);
    EverySignalCounted(signals, keys);
    RawPartition(signals, minOccurrences, keys);
    SortPermutes(ClusterLe, raw);
    SortPermutes(ByCase, RawIgnored(signals, minOccurrences, keys));
    MapPermutes((c: FailureCluster) => c.size, raw, Sort(ClusterLe, raw));
    SumPermutes(Sizes(raw), Sizes(Sort(ClusterLe, raw)));
  }

  // ----- no case is lost or counted twice -----

  /** How often a case id occurs in each cluster. */
  function Occurrences(clusters: seq<FailureCluster>, id: CaseId): seq<nat> {
    Map((c: FailureCluster) => multiset(c.caseIds)[id], clusters)
  }

  /** The case ids of all clusters, each as often as it occurs. */
  function ClusteredCases(clusters: seq<FailureCluster>): multiset<CaseId> {
    if clusters == [] then multiset{} else multiset(clusters[0].caseIds) + ClusteredCases(clusters[1..])
  }

  lemma {:induction false} ClusteredCasesCount(clusters: seq<FailureCluster>, id: CaseId)
    ensures ClusteredCases(clusters)[id] == Sum(Occurrences(clusters, id))
  {
    if clusters != [] {
      ClusteredCasesCount(clusters[1..], id);
      assert Occurrences(clusters, id)[1..] == Occurrences(clusters[1..], id);
    }
  }

  lemma {:induction false} MapCount(s: seq<FailureSignal>, id: CaseId)
    ensures multiset(Map(SignalCase, s))[id] == Count(SignalCase, s, id)
  {
    if s != [] {
      var front, last := s[..|s| - 1], s[|s| - 1];
      MapCount(front, id);
      FrontAndLast(Map(SignalCase, s));
      assert Map(SignalCase, s)[..|s| - 1] == Map(SignalCase, front);
    }
  }

  lemma {:induction false} CountPermutes(s: seq<FailureSignal>, t: seq<FailureSignal>, id: CaseId)
    requires multiset(s) == multiset(t)
    ensures Count(SignalCase, s, id) == Count(SignalCase, t, id)
  {
    MapCount(s, id);
    MapCount(t, id);
    MapPermutes(SignalCase, s, t);
  }

  /** The members of the listed keys, counted by case id. */
  function KeyCount(signals: seq<FailureSignal>, keys: seq<Signature>, id: CaseId): nat {
    if keys == [] then 0 else Count(SignalCase, Members(signals, keys[0]), id) + KeyCount(signals, keys[1..], id)
  }

  lemma {:induction false} KeyCountSnoc(front: seq<FailureSignal>, last: FailureSignal, keys: seq<Signature>,
                                        id: CaseId)
    requires Distinct(keys)
    ensures KeyCount(front + [last], keys, id)
         == KeyCount(front, keys, id) + if SignatureOf(last) in keys && last.caseId == id then 1 else 0
  {
    if keys != [] {
      MembersCountSnoc(front, last, keys[0], id);
      KeyCountSnoc(front, last, keys[1..], id);
      assert SignatureOf(last) in keys <==> SignatureOf(last) == keys[0] || SignatureOf(last) in keys[1..];
    }
  }

  lemma {:induction false} MembersCountSnoc(front: seq<FailureSignal>, last: FailureSignal, key: Signature, id: CaseId)
    ensures Count(SignalCase, Members(front + [last], key), id)
         == Count(SignalCase, Members(front, key), id) + if SignatureOf(last) == key && last.caseId == id then 1 else 0
  {
    Grouping.MembersBySnoc(SignatureOf, front, last, key);
    CountSnoc(SignalCase, Members(front, key), last, id);
  }

  lemma {:induction false} EveryCaseCounted(signals: seq<FailureSignal>, keys: seq<Signature>, id: CaseId)
    requires Distinct(keys) && forall s :: s in signals ==> SignatureOf(s) in keys
    ensures KeyCount(signals, keys, id) == Count(SignalCase, signals, id)
    decreases |signals|
  {
    if signals == [] {
      NoCases(keys, id);
    } else {
      var front, last := signals[..|signals| - 1], signals[|signals| - 1];
      FrontAndLast(signals);
      EveryCaseCounted(front, keys, id);
      KeyCountSnoc(front, last, keys, id);
    }
  }

  lemma {:induction false} NoCases(keys: seq<Signature>, id: CaseId)
    ensures KeyCount([], keys, id) == 0
  {
    if keys != [] {
      NoCases(keys[1..], id);
    }
  }

  lemma {:induction false} ClusterCount(key: Signature, members: seq<FailureSignal>, id: CaseId)
    requires members != []
    ensures multiset(ClusterOf(key, members).caseIds)[id] == Count(SignalCase, members, id)
  {
    SortPermutes(ByCase, members);
    MapCount(Sort(ByCase, members), id);
    CountPermutes(Sort(ByCase, members), members, id);
  }

  lemma {:induction false} RawCases(signals: seq<FailureSignal>, minOccurrences: int, keys: seq<Signature>, id: CaseId)
    ensures Sum(Occurrences(RawClusters(signals, minOccurrences, keys), id))
          + Count(SignalCase, RawIgnored(signals, minOccurrences, keys), id)
         == KeyCount(signals, keys, id)
  {
    if keys != [] {
      RawCases(signals, minOccurrences, keys[1..], id);
      var rest := RawClusters(signals, minOccurrences, keys[1..]);
      var members := Members(signals, keys[0]);
      if Recurs(signals, minOccurrences, keys[0]) {
        ClusterCount(keys[0], members, id);
        OccurrencesCons(ClusterOf(keys[0], members), rest, id);
        NilLeft(RawIgnored(signals, minOccurrences, keys[1..]));
      } else {
        NilLeft(rest);
        CountConcat(SignalCase, members, RawIgnored(signals, minOccurrences, keys[1..]), id);
      }
    }
  }

  lemma OccurrencesCons(c: FailureCluster, rest: seq<FailureCluster>, id: CaseId)
    ensures Sum(Occurrences([c] + rest, id)) == multiset(c.caseIds)[id] + Sum(Occurrences(rest, id))
  {
    assert Occurrences([c] + rest, id)[1..] == Occurrences(rest, id);
  }

  lemma {:induction false} CasesBalance(signals: seq<FailureSignal>, minOccurrences: int, id: CaseId)
    ensures ClusteredCases(ClustersOf(signals, minOccurrences))[id]
          + CaseIds(SignalCase, IgnoredOf(signals, minOccurrences))[id]
         == CaseIds(SignalCase, signals)[id]
  {
    var keys := Keys(signals);
    var raw, ignored := RawClusters(signals, minOccurrences, keys), RawIgnored(signals, minOccurrences, keys);
    KeysDistinct(signals);
    EveryCaseCounted(signals, keys, id);
    RawCases(signals, minOccurrences, keys, id);
    SortPermutes(ClusterLe, raw);
    SortPermutes(ByCase, ignored);
    MapPermutes((c: FailureCluster) => multiset(c.caseIds)[id], raw, Sort(ClusterLe, raw));
    SumPermutes(Occurrences(raw, id), Occurrences(Sort(ClusterLe, raw), id));
    CountPermutes(ignored, Sort(ByCase, ignored), id);
    ClusteredCasesCount(Sort(ClusterLe, raw), id);
    CountIs(SignalCase, Sort(ByCase, ignored), id);
    CountIs(SignalCase, signals, id);
  }

  /** The clusters and the ignored signals partition the signals: together they hold each case id as often. */
  lemma {:induction false} ClusteringKeepsCases(signals: seq<FailureSignal>, minOccurrences: int)
    ensures ClusteredCases(ClustersOf(signals, minOccurrences))
          + CaseIds(SignalCase, IgnoredOf(signals, minOccurrences))
         == CaseIds(SignalCase, signals)
  {
    var clustered := ClusteredCases(ClustersOf(signals, minOccurrences));
    var ignored := CaseIds(SignalCase, IgnoredOf(signals, minOccurrences));
    var none: multiset<CaseId> := multiset{};
    forall id ensures clustered[id] + ignored[id] + none[id] == CaseIds(SignalCase, signals)[id] {
      CasesBalance(signals, minOccurrences, id);
    }
    PointwiseSum(clustered, ignored, none, CaseIds(SignalCase, signals));
    assert clustered + ignored + none == clustered + ignored;
  }

  // ----- who is clustered -----

  lemma {:induction false} RawMembership(signals: seq<FailureSignal>, minOccurrences: int, keys: seq<Signature>)
    ensures forall c :: c in RawClusters(signals, minOccurrences, keys) <==>
      c.signature in keys && Recurs(signals, minOccurrences, c.signature)
      && c == ClusterOf(c.signature, Members(signals, c.signature))
    ensures forall s :: s in RawIgnored(signals, minOccurrences, keys) <==>
      s in signals && SignatureOf(s) in keys && !Recurs(signals, minOccurrences, SignatureOf(s))
  {
    if keys != [] {
      RawMembership(signals, minOccurrences, keys[1..]);
      MembersFacts(signals, keys[0]);
      assert keys == [keys[0]] + keys[1..];
    }
  }

  /** The places of the signals with one key. */
  function Sharers(signals: seq<FailureSignal>, key: Signature): set<nat> {
    set i: nat | i < |signals| && SignatureOf(signals[i]) == key
  }

  lemma {:induction false} MembersAreSharers(signals: seq<FailureSignal>, key: Signature)
    ensures |Members(signals, key)| == |Sharers(signals, key)|
    decreases |signals|
  {
    if signals == [] {
      assert Sharers(signals, key) == {};
    } else {
      var front, last := signals[..|signals| - 1], signals[|signals| - 1];
      MembersAreSharers(front, key);
      FrontAndLast(signals);
      SharersSnoc(front, last, key);
    }
  }

  lemma SharersSnoc(front: seq<FailureSignal>, last: FailureSignal, key: Signature)
    ensures Sharers(front + [last], key) == Sharers(front, key) + if SignatureOf(last) == key then {|front|} else {}
  {
  }

  lemma RecursIff(signals: seq<FailureSignal>, minOccurrences: int, key: Signature)
    ensures Recurs(signals, minOccurrences, key) <==>
      |Sharers(signals, key)| >= 2 && |Sharers(signals, key)| >= minOccurrences
  {
    MembersAreSharers(signals, key);
  }

  /** A signal is clustered iff at least two, and at least the minimum, share its key; otherwise it is ignored. */
  lemma ClusteredIffRecurring(signals: seq<FailureSignal>, minOccurrences: int, s: FailureSignal)
    requires s in signals
    ensures var sharers := |Sharers(signals, SignatureOf(s))|;
            var recurs := sharers >= 2 && sharers >= minOccurrences;
            && (recurs <==> exists c :: c in ClustersOf(signals, minOccurrences) && c.signature == SignatureOf(s))
            && (recurs <==> s !in IgnoredOf(signals, minOccurrences))
  {
    var key, keys := SignatureOf(s), Keys(signals);
    var raw, ignored := RawClusters(signals, minOccurrences, keys), RawIgnored(signals, minOccurrences, keys);
    RecursIff(signals, minOccurrences, key);
    KeysDistinct(signals);
    RawMembership(signals, minOccurrences, keys);
    SamePresence(ClusterLe, raw);
    SamePresence(ByCase, ignored);
    if Recurs(signals, minOccurrences, key) {
      var c := ClusterOf(key, Members(signals, key));
      assert c.signature == key && c in raw && c in ClustersOf(signals, minOccurrences);
    }
  }

  // ----- what a cluster holds, and in which order clusters come -----

  /** Everything a cluster says is about the signals with its key. */
  ghost predicate Describes(c: FailureCluster, members: seq<FailureSignal>)
    requires members != []
  {
    && c.size == |c.caseIds| == |members|
    && multiset(c.caseIds) == multiset(Map(SignalCase, members))
    && (forall i, j :: 0 <= i < j < |c.caseIds| ==> Text.StringLe(c.caseIds[i].text, c.caseIds[j].text))
    && SortedBy(Text.StringLe, c.failureModes) && Distinct(c.failureModes)
    && (forall m :: m in c.failureModes <==> exists s :: s in members && m in s.failureModes)
    && c.avgScore == Mean(Map(ScoreOf, members))
    && exists s :: s in members && s.resultClass == c.resultClass
  }

  lemma {:induction false} ClusterDescribes(key: Signature, members: seq<FailureSignal>)
    requires members != []
    ensures ClusterOf(key, members).signature == key && Describes(ClusterOf(key, members), members)
  {
    var c, ordered := ClusterOf(key, members), Sort(ByCase, members);
    SamePresence(ByCase, members);
    SortPermutes(ByCase, members);
    MapPermutes(SignalCase, ordered, members);
    CasesSorted(members);
    SortedStringsSorted(ModesOf(ordered));
    AverageIs(key, members);
    assert ordered[0] in members;
  }

  lemma CasesSorted(members: seq<FailureSignal>)
    ensures var cases := Map(SignalCase, Sort(ByCase, members));
            forall i, j :: 0 <= i < j < |cases| ==> Text.StringLe(cases[i].text, cases[j].text)
  {
    Orders();
    SortSorts(ByCase, members);
  }

  /** The mean of a list is its total shared out evenly. */
  lemma MeanTimesSize(scores: seq<real>)
    requires scores != []
    ensures Mean(scores) * |scores| as real == Total(scores)
  {
  }

  lemma AverageIs(key: Signature, members: seq<FailureSignal>)
    requires members != []
    ensures ClusterOf(key, members).avgScore == Mean(Map(ScoreOf, members))
  {
    var ordered := Sort(ByCase, members);
    SortPermutes(ByCase, members);
    MapPermutes(ScoreOf, ordered, members);
    TotalPermutes(Map(ScoreOf, ordered), Map(ScoreOf, members));
  }

  /** The members of a group are the signals with its key, in order. */
  lemma {:induction false} MembersPlaces(signals: seq<FailureSignal>, key: Signature) returns (places: seq<nat>)
    ensures PickedAt(signals, Members(signals, key), places) && SetOf(places) == Sharers(signals, key)
    decreases |signals|
  {
    places := [];
    if signals != [] {
      var front, last := signals[..|signals| - 1], signals[|signals| - 1];
      places := MembersPlaces(front, key);
      FrontAndLast(signals);
      SharersSnoc(front, last, key);
      places := PickNext(front, last, Members(front, key), places, SignatureOf(last) == key);
    }
  }

  /** Every cluster describes the signals with its key, and for mined signals its class is theirs. */
  lemma {:induction false} ClustersDescribe(signals: seq<FailureSignal>, minOccurrences: int, c: FailureCluster)
    requires c in ClustersOf(signals, minOccurrences)
    ensures Members(signals, c.signature) != [] && Describes(c, Members(signals, c.signature))
    ensures Mined(signals) ==>
      forall s :: s in signals && SignatureOf(s) == c.signature ==> s.resultClass == c.resultClass
  {
    var keys := Keys(signals);
    RawMembership(signals, minOccurrences, keys);
    SamePresence(ClusterLe, RawClusters(signals, minOccurrences, keys));
    var members := Members(signals, c.signature);
    MembersFacts(signals, c.signature);
    ClusterDescribes(c.signature, members);
    if Mined(signals) {
      var t :| t in members && t.resultClass == c.resultClass;
      forall s | s in signals && SignatureOf(s) == c.signature ensures s.resultClass == c.resultClass {
        SameSignatureSameClass(s, t);
      }
    }
  }

  /** Larger clusters come first, and the key decides between equals; ignored signals come by case. */
  lemma {:induction false} ClustersInOrder(signals: seq<FailureSignal>, minOccurrences: int)
    ensures var cs := ClustersOf(signals, minOccurrences);
            forall i, j :: 0 <= i < j < |cs| ==>
              cs[i].size > cs[j].size
              || (cs[i].size == cs[j].size && Text.StringLe(cs[i].signature.text, cs[j].signature.text))
    ensures var ignored := IgnoredOf(signals, minOccurrences);
            forall i, j :: 0 <= i < j < |ignored| ==> Text.StringLe(ignored[i].caseId.text, ignored[j].caseId.text)
  {
    ClusterOrder();
    Orders();
    SortSorts(ClusterLe, RawClusters(signals, minOccurrences, Keys(signals)));
    SortSorts(ByCase, RawIgnored(signals, minOccurrences, Keys(signals)));
  }

  lemma {:induction false} SamePresence<T>(le: (T, T) -> bool, s: seq<T>)
    ensures forall x :: x in Sort(le, s) <==> x in s
  {
    SortPermutes(le, s);
    forall x ensures x in Sort(le, s) <==> x in s {
      assert x in multiset(Sort(le, s)) <==> x in multiset(s);
    }
  }

  // ----- independence of the input order -----

  /** All signals come from mining. */
  ghost predicate Mined(signals: seq<FailureSignal>) {
    forall s :: s in signals ==> IsFailure(s.resultClass)
  }

  lemma {:induction false} MembersCount(signals: seq<FailureSignal>, key: Signature, x: FailureSignal)
    ensures multiset(Members(signals, key))[x] == if SignatureOf(x) == key then multiset(signals)[x] else 0
    decreases |signals|
  {
    if signals != [] {
      var front, last := signals[..|signals| - 1], signals[|signals| - 1];
      assert signals == front + [last];
      MembersCount(front, key, x);
    }
  }

  lemma MembersPermute(s: seq<FailureSignal>, t: seq<FailureSignal>, key: Signature)
    requires multiset(s) == multiset(t)
    ensures multiset(Members(s, key)) == multiset(Members(t, key))
  {
    forall x ensures multiset(Members(s, key))[x] == multiset(Members(t, key))[x] {
      MembersCount(s, key, x);
      MembersCount(t, key, x);
    }
  }

  predicate CaseLe(a: CaseId, b: CaseId) {
    Text.StringLe(a.text, b.text)
  }

  lemma Orders()
    ensures TotalPreorder(ByCase) && TotalPreorder(CaseLe)
    ensures forall a, b :: CaseLe(a, b) && CaseLe(b, a) ==> a == b
  {
    StringOrder();
    forall a: CaseId, b | CaseLe(a, b) && CaseLe(b, a) ensures a == b {
      assert a.text == b.text;
    }
  }

  /** The sorted case ids of a group do not depend on the order of the group. */
  lemma {:induction false} CaseIdsCanonical(m: seq<FailureSignal>, n: seq<FailureSignal>)
    requires multiset(m) == multiset(n)
    ensures Map(SignalCase, Sort(ByCase, m)) == Map(SignalCase, Sort(ByCase, n))
  {
    Orders();
    SortPermutes(ByCase, m);
    SortPermutes(ByCase, n);
    SortSorts(ByCase, m);
    SortSorts(ByCase, n);
    MapPermutes(SignalCase, Sort(ByCase, m), Sort(ByCase, n));
    SortedIsCanonical(CaseLe, Map(SignalCase, Sort(ByCase, m)), Map(SignalCase, Sort(ByCase, n)));
  }

  /** One cluster is the same for every order of its members. */
  lemma ClusterCanonical(key: Signature, m: seq<FailureSignal>, n: seq<FailureSignal>)
    requires m != [] && n != [] && multiset(m) == multiset(n)
    requires forall s :: s in m ==> SignatureOf(s) == key && IsFailure(s.resultClass)
    ensures ClusterOf(key, m) == ClusterOf(key, n)
  {
    var a, b := Sort(ByCase, m), Sort(ByCase, n);
    SortPermutes(ByCase, m);
    SortPermutes(ByCase, n);
    CaseIdsCanonical(m, n);
    MapPermutes(ScoreOf, a, b);
    TotalPermutes(Map(ScoreOf, a), Map(ScoreOf, b));
    forall s ensures s in a <==> s in b {
      assert s in multiset(a) <==> s in multiset(b);
    }
    assert ModesOf(a) == ModesOf(b);
    assert a[0] in multiset(m) && b[0] in multiset(m);
    SameSignatureSameClass(a[0], b[0]);
    assert |a| == |b|;
  }

  /** Permuting the mined signals permutes the raw clusters. */
  lemma {:induction false} RawPermute(s: seq<FailureSignal>, t: seq<FailureSignal>, minOccurrences: int,
                                      keys: seq<Signature>)
    requires multiset(s) == multiset(t) && Mined(s)
    ensures RawClusters(s, minOccurrences, keys) == RawClusters(t, minOccurrences, keys)
  {
    if keys != [] {
      RawPermute(s, t, minOccurrences, keys[1..]);
      MembersPermute(s, t, keys[0]);
      MembersFacts(s, keys[0]);
      var m, n := Members(s, keys[0]), Members(t, keys[0]);
      assert |m| == |multiset(m)| == |multiset(n)| == |n|;
      if Recurs(s, minOccurrences, keys[0]) {
        ClusterCanonical(keys[0], m, n);
      }
    }
  }

  lemma {:induction false} RawFollowsKeys(signals: seq<FailureSignal>, minOccurrences: int, keys: seq<Signature>,
                                          keys': seq<Signature>)
    requires multiset(keys) == multiset(keys')
    ensures multiset(RawClusters(signals, minOccurrences, keys))
      == multiset(RawClusters(signals, minOccurrences, keys'))
    decreases |keys|
  {
    assert |keys| == |multiset(keys)| == |multiset(keys')| == |keys'|;
    if keys != [] {
      var i := HeadOut(keys, keys');
      var left, right := keys'[..i], keys'[i + 1..];
      RawFollowsKeys(signals, minOccurrences, keys[1..], left + right);
      RawAround(signals, minOccurrences, left, keys[0], right);
      assert keys == [] + ([keys[0]] + keys[1..]) && [] + keys[1..] == keys[1..];
      RawAround(signals, minOccurrences, [], keys[0], keys[1..]);
    }
  }

  lemma {:induction false} RawAround(signals: seq<FailureSignal>, minOccurrences: int, left: seq<Signature>,
                                     key: Signature, right: seq<Signature>)
    ensures multiset(RawClusters(signals, minOccurrences, left + ([key] + right)))
      == multiset(RawClusters(signals, minOccurrences, [key]))
        + multiset(RawClusters(signals, minOccurrences, left + right))
    ensures RawClusters(signals, minOccurrences, [key] + right)
      == RawClusters(signals, minOccurrences, [key]) + RawClusters(signals, minOccurrences, right)
  {
    ClustersConcat(signals, minOccurrences, left, [key] + right);
    ClustersConcat(signals, minOccurrences, [key], right);
    ClustersConcat(signals, minOccurrences, left, right);
  }

  lemma ClusterOrder()
    ensures TotalPreorder(ClusterLe)
    ensures forall a, b :: ClusterLe(a, b) && ClusterLe(b, a) ==> a.signature == b.signature
  {
    StringOrder();
    forall a: FailureCluster, b | ClusterLe(a, b) && ClusterLe(b, a) ensures a.signature == b.signature {
      assert a.signature.text == b.signature.text;
    }
  }

  /** Every permutation of mined signals gives the same list of clusters. */
  lemma ClusteringIgnoresOrder(s: seq<FailureSignal>, t: seq<FailureSignal>, minOccurrences: int)
    requires multiset(s) == multiset(t) && Mined(s)
    ensures ClustersOf(s, minOccurrences) == ClustersOf(t, minOccurrences)
  {
    var raw, raw' := RawClusters(s, minOccurrences, Keys(s)), RawClusters(t, minOccurrences, Keys(t));
    KeysPermute(s, t);
    RawFollowsKeys(s, minOccurrences, Keys(s), Keys(t));
    RawPermute(s, t, minOccurrences, Keys(t));
    ClusterOrder();
    RawMembership(s, minOccurrences, Keys(s));
    forall a, b | a in multiset(raw) && b in multiset(raw) && ClusterLe(a, b) && ClusterLe(b, a) ensures a == b {
      assert a in raw && b in raw;
    }
    SortIgnoresOrder(ClusterLe, raw, raw');
  }

  lemma KeysPermute(s: seq<FailureSignal>, t: seq<FailureSignal>)
    requires multiset(s) == multiset(t)
    ensures multiset(Keys(s)) == multiset(Keys(t))
  {
    KeysDistinct(s);
    KeysDistinct(t);
    forall x ensures x in s <==> x in t {
      assert x in multiset(s) <==> x in multiset(t);
    }
    assert SetOf(Keys(s)) == SetOf(Keys(t));
    SameElementsPermute(Keys(s), Keys(t));
  }
}
