/** The bounded self-improving loop: mine, cluster, propose, validate, submit. It never activates. */
module ImprovementLoop {
  import opened Seqs
  import opened Proposals
  import opened Governance
  import opened GovernanceRuns
  import FailureMiner
  import Clusters
  import Activations

  /** One skill or policy candidate; its hash is the digest of its content. */
  datatype Candidate = Candidate(kind: string, body: Body, contentHash: Hash)

  datatype StopReason = NoRecurringClusters | NoNewProposals | ValidationOrRegressionFailure

  datatype IterationReport = IterationReport(
    signals: nat,
    quarantined: nat,
    clusters: nat,
    ignored: nat,
    proposalsCreated: nat,
    duplicatesSuppressed: nat,
    unsafeRejected: nat,
    validated: nat,
    validationFailures: nat,
    regressionFailures: nat,
    submitted: nat,
    stopReason: Option<StopReason>)

  datatype LoopReport = LoopReport(iterations: seq<IterationReport>, totalProposals: nat, totalActivated: nat)

  /** What became of one candidate. */
  datatype Fate = Duplicate | ValidationFailed | RegressionFailed(validated: bool) | Submitted(validated: bool)

  /** What the caller injects for proposals by id. */
  datatype Scores = Scores(suite: map<ProposalId, Benchmark>, regression: map<ProposalId, Regression>)

  function Lookup<T>(scores: map<ProposalId, T>, id: ProposalId): Option<T> {
    if id in scores then Some(scores[id]) else None
  }

  /** The verdict of `validate_proposal`: cases were run, they improved, and there is a validation plan. */
  predicate Improved(b: Benchmark, plan: seq<string>) {
    b.casesRun > 0 && b.after > b.before && plan != []
  }

  /** The verdict of `check_regression`: it passed, and with no more failures than before. */
  predicate Regressed(e: Regression) {
    !e.passed || e.failuresAfter > e.failuresBefore
  }

  predicate Validated(p: Proposal) {
    p.benchmark.Some? && Improved(p.benchmark.value, p.body.validationPlan)
  }

  predicate FailsValidation(p: Proposal) {
    p.benchmark.Some? && !Improved(p.benchmark.value, p.body.validationPlan)
  }

  predicate FailsRegression(p: Proposal) {
    p.regression.Some? && Regressed(p.regression.value)
  }

  /** What became of the candidate a new row was made from, read off the stored evidence. */
  function FateOf(p: Proposal): Fate {
    if FailsValidation(p) then ValidationFailed
    else if FailsRegression(p) then RegressionFailed(Validated(p))
    else Submitted(Validated(p))
  }

  /** The row holds the evidence the scores have for it, and waits for review unless some of it failed. */
  ghost predicate Settled(p: Proposal, scores: Scores) {
    && p.benchmark == Lookup(scores.suite, p.id)
    && p.regression == (if FailsValidation(p) then None else Lookup(scores.regression, p.id))
    && p.status == if FateOf(p).Submitted? then PendingReview else Draft
  }

  /** Rows of one origin differ in nothing but the evidence, the status and the version that goes with it. */
  predicate SameOrigin(p: Proposal, q: Proposal) {
    q == p.(benchmark := q.benchmark, regression := q.regression, status := q.status, version := q.version)
  }

  /** The row a candidate becomes: its kind, body and hash, submitted by the loop and reviewed by nobody. */
  predicate MadeFrom(p: Proposal, c: Candidate) {
    SameOrigin(NewDraft(p.id, c.kind, c.body, c.contentHash, "loop"), p)
  }

  /**
   * A settled row, check by check: it is drafted again by evidence that fails, holds no regression evidence when
   * its validation failed, and waits for review otherwise, with or without evidence.
   */
  lemma SettledIs(p: Proposal, scores: Scores)
    requires Settled(p, scores)
    ensures var tested, id := p.id in scores.suite, p.id;
            var failed := tested && !(scores.suite[id].casesRun > 0 && scores.suite[id].after > scores.suite[id].before
                                      && p.body.validationPlan != []);
            var checked := !failed && id in scores.regression;
            var worse := checked && (!scores.regression[id].passed
                                     || scores.regression[id].failuresAfter > scores.regression[id].failuresBefore);
            && p.benchmark == (if tested then Some(scores.suite[p.id]) else None)
            && p.regression == (if checked then Some(scores.regression[p.id]) else None)
            && p.status == (if failed || worse then Draft else PendingReview)
            && FateOf(p) == if failed then ValidationFailed
                            else if worse then RegressionFailed(tested) else Submitted(tested)
  {
  }

  predicate Stopped(r: IterationReport) {
    r.stopReason.Some?
  }

  /** Nothing created is lost: it was submitted or failed one of the two checks. */
  predicate Accounted(r: IterationReport) {
    r.proposalsCreated == r.submitted + r.validationFailures + r.regressionFailures
  }

  function Tally(r: IterationReport, fate: Fate): IterationReport {
    match fate
    case Duplicate => r.(duplicatesSuppressed := r.duplicatesSuppressed + 1)
    case ValidationFailed =>
      r.(proposalsCreated := r.proposalsCreated + 1, validationFailures := r.validationFailures + 1)
    case RegressionFailed(v) =>
      r.(proposalsCreated := r.proposalsCreated + 1, validated := r.validated + if v then 1 else 0,
         regressionFailures := r.regressionFailures + 1)
    case Submitted(v) =>
      r.(proposalsCreated := r.proposalsCreated + 1, validated := r.validated + if v then 1 else 0,
         submitted := r.submitted + 1)
  }

  ghost predicate HasHash(rows: seq<Proposal>, hash: Hash) {
    hash.text != "" && exists p :: p in rows && p.contentHash == hash
  }

  lemma HasHashIsFound(rows: seq<Proposal>, hash: Hash)
    ensures HasHash(rows, hash) <==> FindByHash(rows, hash).Some?
  {
  }

  /** Earlier rows are exactly as they were. */
  ghost predicate Extends(before: seq<Proposal>, after: seq<Proposal>) {
    |before| <= |after| && after[..|before|] == before
  }

  lemma ExtendsKeepsHash(before: seq<Proposal>, after: seq<Proposal>, hash: Hash)
    requires Extends(before, after) && HasHash(before, hash)
    ensures HasHash(after, hash)
  {
    var p :| p in before && p.contentHash == hash;
    var i := IndexOf(before, p);
    assert after[i] == p;
  }

  /** Writing over the last row of a table with unique ids leaves the others alone. */
  lemma {:induction false} UpdateLast(base: seq<Proposal>, p: Proposal, q: Proposal)
    requires UniqueProposals(base + [p]) && q.id == p.id && q.kind == p.kind
    ensures Update(base + [p], q) == base + [q]
    ensures Find(base + [p], p.id) == Some(p)
  {
    UniqueFind(base + [p], |base|);
    assert forall i :: 0 <= i < |base| ==> (base + [p])[i].id != (base + [p])[|base|].id;
  }

  /** Saving evidence with the last row keeps the tables governed. */
  lemma {:induction false} EvidenceStep(s: State, base: seq<Proposal>, p: Proposal, q: Proposal)
    requires Governed(s) && s.proposals == base + [p]
    requires q == p.(benchmark := q.benchmark, regression := q.regression)
    ensures Update(s.proposals, q) == base + [q] && Governed(s.(proposals := base + [q]))
  {
    UpdateLast(base, p, q);
    NewEvidenceKeeps(s, p, q);
  }

  class SelfImprovingLoop {
    const proposals: ProposalStore
    const activations: ActivationStore
    /** `generate_candidates`: none for a refused cluster. */
    const generate: Clusters.FailureCluster -> seq<Candidate>
    const maxIterations: nat
    const minOccurrences: nat

    constructor (proposals: ProposalStore, activations: ActivationStore,
                 generate: Clusters.FailureCluster -> seq<Candidate>, maxIterations: int, minOccurrences: int)
      ensures this.proposals == proposals && this.activations == activations && this.generate == generate
      ensures this.maxIterations == (if maxIterations < 1 then 1 else maxIterations)
      ensures this.minOccurrences == (if minOccurrences < 2 then 2 else minOccurrences)
    {
      this.proposals, this.activations, this.generate := proposals, activations, generate;
      this.maxIterations := if maxIterations > 1 then maxIterations else 1;
      this.minOccurrences := if minOccurrences > 2 then minOccurrences else 2;
    }

    ghost function Tables(): State
      reads proposals, activations
    {
      State(proposals.rows, activations.rows)
    }

    /** `content_hash_for` never yields the empty string. */
    ghost predicate Hashed() {
      forall cluster, c :: c in generate(cluster) ==> c.contentHash.text != ""
    }

    function ClustersOfBatch(results: seq<FailureMiner.EvaluationResult>): seq<Clusters.FailureCluster> {
      Clusters.ClustersOf(FailureMiner.Signals(results), minOccurrences)
    }

    /** Every candidate these clusters give is already in the table. */
    ghost predicate Proposed(rows: seq<Proposal>, clusters: seq<Clusters.FailureCluster>) {
      forall cluster, c :: cluster in clusters && c in generate(cluster) ==> HasHash(rows, c.contentHash)
    }

    /** `create`, over governed tables. */
    method CreateDraft(candidate: Candidate) returns (proposal: Proposal, created: bool)
      requires Governed(Tables())
      modifies proposals
      ensures Governed(Tables())
      ensures created <==> !HasHash(old(proposals.rows), candidate.contentHash)
      ensures !created ==> proposals.rows == old(proposals.rows)
      ensures created ==>
        && proposals.rows == old(proposals.rows) + [proposal]
        && proposal == NewDraft(proposal.id, candidate.kind, candidate.body, candidate.contentHash, "loop")
    {
      ghost var before := Tables();
      HasHashIsFound(proposals.rows, candidate.contentHash);
      proposal, created := proposals.Create(candidate.kind, candidate.body, candidate.contentHash, "loop");
      if created {
        var op := CreateOp(proposal.id, proposal.kind, proposal.body, proposal.contentHash, proposal.submittedBy);
        NotFound(before.proposals, proposal.id);
        ApplyKeeps(before, op);
      }
    }

    /** `save`, after evidence was attached to the object just created. */
    method SaveEvidence(ghost base: seq<Proposal>, ghost was: Proposal, proposal: Proposal)
      requires Governed(Tables()) && proposals.rows == base + [was]
      requires proposal == was.(benchmark := proposal.benchmark, regression := proposal.regression)
      modifies proposals
      ensures Governed(Tables()) && proposals.rows == base + [proposal]
    {
      EvidenceStep(Tables(), base, was, proposal);
      var refreshed := proposals.Save(proposal);
    }

    /** `validate_proposal` and the `save` after it: every check that fails is a reason against the proposal. */
    method ValidateProposal(ghost base: seq<Proposal>, proposal: Proposal, scores: Benchmark)
      returns (passed: bool, judged: Proposal)
      requires Governed(Tables()) && proposals.rows == base + [proposal]
      modifies proposals
      ensures Governed(Tables()) && proposals.rows == base + [judged]
      ensures judged == proposal.(benchmark := Some(scores))
      ensures passed <==> scores.casesRun > 0 && scores.after > scores.before && proposal.body.validationPlan != []
    {
      judged := proposal.(benchmark := Some(scores));
      var reasons := 0;
      if scores.casesRun <= 0 {
        reasons := reasons + 1;
      }
      if scores.after - scores.before <= 0.0 {
        reasons := reasons + 1;
      }
      if judged.body.validationPlan == [] {
        reasons := reasons + 1;
      }
      passed := reasons == 0;
      SaveEvidence(base, proposal, judged);
    }

    /** `check_regression` and the `save` after it. */
    method CheckRegression(ghost base: seq<Proposal>, proposal: Proposal, scores: Regression)
      returns (passed: bool, judged: Proposal)
      requires Governed(Tables()) && proposals.rows == base + [proposal]
      modifies proposals
      ensures Governed(Tables()) && proposals.rows == base + [judged]
      ensures judged == proposal.(regression := Some(scores))
      ensures passed <==> scores.passed && scores.failuresAfter <= scores.failuresBefore
    {
      judged := proposal.(regression := Some(scores));
      var reasons := 0;
      if !scores.passed {
        reasons := reasons + 1;
      }
      if scores.failuresAfter - scores.failuresBefore > 0 {
        reasons := reasons + 1;
      }
      passed := reasons == 0;
      SaveEvidence(base, proposal, judged);
    }

    /** `submit_for_review`; the proposal is always still a draft here. */
    method SubmitDraft(ghost base: seq<Proposal>, proposal: Proposal)
      requires Governed(Tables()) && proposals.rows == base + [proposal] && proposal.status == Draft
      modifies proposals
      ensures Governed(Tables())
      ensures proposals.rows == base + [Moved(proposal, PendingReview, "loop", None, None)]
    {
      SubmitStep(Tables(), base, proposal);
      var submitted := SubmitForReview(proposals, proposal.id, "loop");
    }

    /** A new draft gets the evidence the scores have for it, and is submitted unless some of it fails. */
    method Settle(ghost base: seq<Proposal>, draft: Proposal, scores: Scores) returns (fate: Fate, ghost row: Proposal)
      requires Governed(Tables()) && proposals.rows == base + [draft] && draft.status == Draft
      requires draft.benchmark == None && draft.regression == None && draft.submittedBy == "loop"
      modifies proposals
      ensures Governed(Tables()) && proposals.rows == base + [row] && SameOrigin(draft, row)
      ensures Settled(row, scores) && fate == FateOf(row) && fate != Duplicate
    {
      var proposal, validated := draft, false;
      if proposal.id in scores.suite {
        var passed;
        passed, proposal := ValidateProposal(base, proposal, scores.suite[proposal.id]);
        if !passed {
          return ValidationFailed, proposal;
        }
        validated := true;
      }
      if proposal.id in scores.regression {
        var passed;
        passed, proposal := CheckRegression(base, proposal, scores.regression[proposal.id]);
        if !passed {
          return RegressionFailed(validated), proposal;
        }
      }
      SubmitDraft(base, proposal);
      return Submitted(validated), Moved(proposal, PendingReview, "loop", None, None);
    }

    /** `row` is the new row, or the one already there. */
    method Propose(candidate: Candidate, scores: Scores) returns (fate: Fate, ghost row: Proposal)
      requires Governed(Tables())
      modifies proposals
      ensures Governed(Tables())
      ensures fate == Duplicate <==> HasHash(old(proposals.rows), candidate.contentHash)
      ensures fate == Duplicate ==> proposals.rows == old(proposals.rows)
      ensures fate != Duplicate ==>
        && proposals.rows == old(proposals.rows) + [row] && MadeFrom(row, candidate)
        && Settled(row, scores) && fate == FateOf(row)
    {
      ghost var base := proposals.rows;
      var proposal, created := CreateDraft(candidate);
      if !created {
        return Duplicate, proposal;
      }
      fate, row := Settle(base, proposal, scores);
    }

    method ProposeEach(candidates: seq<Candidate>, scores: Scores, report: IterationReport)
      returns (r: IterationReport)
      requires Governed(Tables()) && Accounted(report)
      modifies proposals
      ensures Governed(Tables()) && Accounted(r) && SameInput(report, r)
      ensures Grown(old(proposals.rows), proposals.rows, scores, report, r)
      ensures Handled(report, r, |candidates|, 0)
      ensures MadeOf(old(proposals.rows), proposals.rows, candidates)
    {
      r := report;
      NothingGrows(proposals.rows, scores, r);
      for k := 0 to |candidates|
        invariant Governed(Tables()) && Accounted(r) && SameInput(report, r)
        invariant Grown(old(proposals.rows), proposals.rows, scores, report, r)
        invariant Handled(report, r, k, 0)
        invariant MadeOf(old(proposals.rows), proposals.rows, candidates[..k])
      {
        ghost var rows, before := proposals.rows, r;
        ghost var row;
        var fate;
        fate, row := Propose(candidates[k], scores);
        r := Tally(r, fate);
        TallyGrows(rows, proposals.rows, scores, before, fate, row);
        GrownTransitive(old(proposals.rows), rows, proposals.rows, scores, report, before, r);
        OneMade(rows, proposals.rows, candidates[k], row);
        MadeTransitive(old(proposals.rows), rows, proposals.rows, candidates[..k], [candidates[k]]);
        TakeMore(candidates, k);
      }
      assert candidates[..|candidates|] == candidates;
    }

    /** All candidates of one cluster; a refused cluster is counted as such. */
    method ProposeAll(cluster: Clusters.FailureCluster, scores: Scores, report: IterationReport)
      returns (r: IterationReport)
      requires Governed(Tables()) && Accounted(report)
      modifies proposals
      ensures Governed(Tables()) && Accounted(r) && SameInput(report, r)
      ensures Grown(old(proposals.rows), proposals.rows, scores, report, r)
      ensures Handled(report, r, |generate(cluster)|, if generate(cluster) == [] then 1 else 0)
      ensures MadeOf(old(proposals.rows), proposals.rows, generate(cluster))
    {
      var candidates := generate(cluster);
      if candidates == [] {
        r := report.(unsafeRejected := report.unsafeRejected + 1);
        NothingGrows(proposals.rows, scores, report);
      } else {
        r := ProposeEach(candidates, scores, report);
      }
    }

    /** The loop over the clusters of an iteration. */
    method ProposeClusters(clusters: seq<Clusters.FailureCluster>, scores: Scores, start: IterationReport)
      returns (r: IterationReport)
      requires Governed(Tables()) && Accounted(start)
      modifies proposals
      ensures Governed(Tables()) && Accounted(r) && SameInput(start, r)
      ensures Grown(old(proposals.rows), proposals.rows, scores, start, r)
      ensures Handled(start, r, |CandidatesOf(clusters)|, RefusedCount(clusters))
      ensures MadeOf(old(proposals.rows), proposals.rows, CandidatesOf(clusters))
    {
      r := start;
      NothingGrows(proposals.rows, scores, r);
      for k := 0 to |clusters|
        invariant Governed(Tables()) && Accounted(r)
        invariant Grown(old(proposals.rows), proposals.rows, scores, start, r)
        invariant Handled(start, r, |CandidatesOf(clusters[..k])|, RefusedCount(clusters[..k]))
        invariant MadeOf(old(proposals.rows), proposals.rows, CandidatesOf(clusters[..k]))
        invariant SameInput(start, r)
      {
        ghost var rows, before := proposals.rows, r;
        r := ProposeAll(clusters[k], scores, r);
        GrownTransitive(old(proposals.rows), rows, proposals.rows, scores, start, before, r);
        MadeTransitive(old(proposals.rows), rows, proposals.rows, CandidatesOf(clusters[..k]), generate(clusters[k]));
        assert clusters[..k + 1][..k] == clusters[..k];
      }
      assert clusters[..|clusters|] == clusters;
    }

    method RunIteration(results: seq<FailureMiner.EvaluationResult>, scores: Scores)
      returns (r: IterationReport)
      requires Governed(Tables()) && Hashed()
      modifies proposals
      // the tables stay governed, and no activation changes
      ensures Governed(Tables()) && activations.rows == old(activations.rows)
      // what was created was submitted or failed a check, and is what the table grew by
      ensures r.proposalsCreated == r.submitted + r.validationFailures + r.regressionFailures
      ensures Reported(old(proposals.rows), proposals.rows, scores, r)
      // the new rows are made, in order, from the candidates whose hash is new; the others are counted
      ensures MadeOf(old(proposals.rows), proposals.rows, CandidatesOf(ClustersOfBatch(results)))
      ensures r.proposalsCreated + r.duplicatesSuppressed == |CandidatesOf(ClustersOfBatch(results))|
      ensures r.unsafeRejected == RefusedCount(ClustersOfBatch(results))
      // afterwards these results have nothing new to propose, and a run without news stops
      ensures Proposed(proposals.rows, ClustersOfBatch(results))
      ensures Proposed(old(proposals.rows), ClustersOfBatch(results)) ==> proposals.rows == old(proposals.rows)
      ensures r.stopReason ==
        if ClustersOfBatch(results) == [] then Some(NoRecurringClusters)
        else if r.proposalsCreated == 0 then Some(NoNewProposals)
        else if r.submitted < r.proposalsCreated then Some(ValidationOrRegressionFailure)
        else None
      ensures r.signals == |FailureMiner.Signals(results)| && r.clusters == |ClustersOfBatch(results)|
      ensures r.ignored == |Clusters.IgnoredOf(FailureMiner.Signals(results), minOccurrences)|
      ensures r.quarantined
        == |FailureMiner.QuarantinedOf(results)| + |FailureMiner.UnknownOf(FailureMiner.CleanOf(results))|
    {
      var signals, quarantined := FailureMiner.MineFailures(results);
      var clusters, ignored := Clusters.ClusterSignals(signals, minOccurrences);
      var start := IterationReport(|signals|, |quarantined|, |clusters|, |ignored|, 0, 0, 0, 0, 0, 0, 0, None);
      if clusters == [] {
        NothingGrows(proposals.rows, scores, start);
        GrownIsReported(proposals.rows, proposals.rows, scores, start, start, Some(NoRecurringClusters));
        NothingMade(proposals.rows);
        return start.(stopReason := Some(NoRecurringClusters));
      }
      r := ProposeClusters(clusters, scores, start);
      MadeIsProposed(old(proposals.rows), proposals.rows, clusters);
      forall reason ensures Reported(old(proposals.rows), proposals.rows, scores, r.(stopReason := reason)) {
        GrownIsReported(old(proposals.rows), proposals.rows, scores, start, r, reason);
      }
      assert r.(stopReason := None) == r;
      if r.proposalsCreated == 0 {
        r := r.(stopReason := Some(NoNewProposals));
      } else if r.validationFailures > 0 || r.regressionFailures > 0 {
        r := r.(stopReason := Some(ValidationOrRegressionFailure));
      }
    }

    /** The candidates these clusters give, in order. */
    function CandidatesOf(clusters: seq<Clusters.FailureCluster>): seq<Candidate> {
      if clusters == [] then [] else
        CandidatesOf(clusters[..|clusters| - 1]) + generate(clusters[|clusters| - 1])
    }

    /** The clusters that give none. */
    function RefusedCount(clusters: seq<Clusters.FailureCluster>): nat {
      if clusters == [] then 0 else
        RefusedCount(clusters[..|clusters| - 1]) + if generate(clusters[|clusters| - 1]) == [] then 1 else 0
    }

    lemma StillProposed(before: seq<Proposal>, after: seq<Proposal>, clusters: seq<Clusters.FailureCluster>)
      requires Extends(before, after) && Proposed(before, clusters)
      ensures Proposed(after, clusters)
    {
      forall cluster, c | cluster in clusters && c in generate(cluster) ensures HasHash(after, c.contentHash) {
        ExtendsKeepsHash(before, after, c.contentHash);
      }
    }

    /** Cluster by cluster, the candidates come one after the other. */
    lemma {:induction false} CandidatesOfConcat(a: seq<Clusters.FailureCluster>, b: seq<Clusters.FailureCluster>)
      ensures CandidatesOf(a + b) == CandidatesOf(a) + CandidatesOf(b)
      ensures |b| == 1 ==> CandidatesOf(b) == generate(b[0])
      decreases |b|
    {
      if b == [] {
        NilLeft(a);
        NilLeft(CandidatesOf(a));
      } else {
        var front, last := b[..|b| - 1], b[|b| - 1];
        CandidatesOfConcat(a, front);
        FrontAndLast(b);
        Associate(a, front, [last]);
        TakeAll(a + front, last);
        Associate(CandidatesOf(a), CandidatesOf(front), generate(last));
        NilLeft(generate(last));
      }
    }

    /** The clusters that give no candidate. */
    function Refused(clusters: seq<Clusters.FailureCluster>): set<nat> {
      set i: nat | i < |clusters| && generate(clusters[i]) == []
    }

    lemma {:induction false} RefusedCountIs(clusters: seq<Clusters.FailureCluster>)
      ensures RefusedCount(clusters) == |Refused(clusters)|
      decreases |clusters|
    {
      if clusters == [] {
        assert Refused(clusters) == {};
      } else {
        var front, last := clusters[..|clusters| - 1], clusters[|clusters| - 1];
        RefusedCountIs(front);
        assert Refused(clusters) == Refused(front) + if generate(last) == [] then {|front|} else {};
      }
    }

    lemma {:induction false} CandidatesOfMembers(clusters: seq<Clusters.FailureCluster>, c: Candidate)
      ensures c in CandidatesOf(clusters) <==> exists cluster :: cluster in clusters && c in generate(cluster)
    {
      if clusters != [] {
        var front, last := clusters[..|clusters| - 1], clusters[|clusters| - 1];
        FrontAndLast(clusters);
        CandidatesOfMembers(front, c);
      }
    }

    /** Afterwards every candidate is in the table, and if all of them were before, nothing was made. */
    lemma MadeIsProposed(before: seq<Proposal>, after: seq<Proposal>, clusters: seq<Clusters.FailureCluster>)
      requires Hashed() && MadeOf(before, after, CandidatesOf(clusters))
      ensures Proposed(after, clusters)
      ensures Proposed(before, clusters) ==> after == before
    {
      var cs := CandidatesOf(clusters);
      forall c ensures c in cs <==> exists cluster :: cluster in clusters && c in generate(cluster) {
        CandidatesOfMembers(clusters, c);
      }
      MadeHashes(before, after, cs);
      forall cluster, c | cluster in clusters && c in generate(cluster) ensures HasHash(after, c.contentHash) {
        assert c in cs && c.contentHash in HashesOf(cs);
        assert c.contentHash in Hashes(after);
      }
      if Proposed(before, clusters) {
        NothingNew(Hashes(before), cs);
        assert after == before + after[|before|..];
      }
    }

    /** The first n batches have nothing new to propose. */
    ghost predicate Exhausted(rows: seq<Proposal>, batches: seq<Batch>, n: nat)
      requires n <= |batches|
    {
      forall i :: 0 <= i < n ==> Proposed(rows, ClustersOfBatch(batches[i].results))
    }

    lemma StillExhausted(before: seq<Proposal>, after: seq<Proposal>, batches: seq<Batch>, n: nat)
      requires n < |batches| && Extends(before, after)
      requires Exhausted(before, batches, n) && Proposed(after, ClustersOfBatch(batches[n].results))
      ensures Exhausted(after, batches, n + 1)
    {
      forall i | 0 <= i < n ensures Proposed(after, ClustersOfBatch(batches[i].results)) {
        StillProposed(before, after, ClustersOfBatch(batches[i].results));
      }
    }

    lemma SeenIsProposed(rows: seq<Proposal>, batches: seq<Batch>, n: nat)
      requires n < |batches| && Exhausted(rows, batches, n)
      ensures Seen(batches, n) ==> Proposed(rows, ClustersOfBatch(batches[n].results))
    {
    }

    /** One iteration of `run`, after the batches before it. */
    method RunBatch(batches: seq<Batch>, index: nat, scores: Scores) returns (r: IterationReport)
      requires Governed(Tables()) && Hashed()
      requires index < |batches| && Exhausted(proposals.rows, batches, index)
      modifies proposals
      ensures Governed(Tables()) && activations.rows == old(activations.rows)
      ensures Accounted(r) && |proposals.rows| == |old(proposals.rows)| + r.proposalsCreated
      ensures Exhausted(proposals.rows, batches, index + 1)
      ensures Seen(batches, index) ==> r.proposalsCreated == 0 && Stopped(r)
    {
      SeenIsProposed(proposals.rows, batches, index);
      r := RunIteration(batches[index].results, scores);
      StillExhausted(old(proposals.rows), proposals.rows, batches, index);
    }

    /** The loop over `batches[:max_iterations]`, up to the first iteration that stops. */
    method RunBatches(batches: seq<Batch>, scores: Scores, bound: nat) returns (iterations: seq<IterationReport>)
      requires Governed(Tables()) && Hashed() && bound <= |batches|
      modifies proposals
      ensures Governed(Tables()) && activations.rows == old(activations.rows)
      ensures |iterations| <= bound && StopsAtFirst(iterations) && NoNewsRepeats(iterations, batches)
      ensures |iterations| < bound ==> iterations != [] && Stopped(iterations[|iterations| - 1])
      ensures |proposals.rows| == |old(proposals.rows)| + Created(iterations)
    {
      iterations := [];
      var index, stopped := 0, false;
      while index < bound && !stopped
        invariant Governed(Tables()) && activations.rows == old(activations.rows)
        invariant 0 <= index == |iterations| <= bound && (stopped ==> index > 0)
        invariant StopsAtFirst(iterations) && NoNewsRepeats(iterations, batches)
        invariant index > 0 ==> (stopped <==> Stopped(iterations[index - 1]))
        invariant Exhausted(proposals.rows, batches, index)
        invariant |proposals.rows| == |old(proposals.rows)| + Created(iterations)
        decreases bound - index
      {
        var iteration := RunBatch(batches, index, scores);
        NoNewsSnoc(iterations, iteration, batches);
        StopsSnoc(iterations, iteration);
        iterations, stopped, index := iterations + [iteration], iteration.stopReason.Some?, index + 1;
      }
    }

    /** At most `maxIterations` batches, stopping at the first iteration that says so. A batch seen
        before always says so. */
    method Run(batches: seq<Batch>, scores: Scores) returns (report: LoopReport)
      requires Governed(Tables()) && Hashed()
      modifies proposals
      ensures Governed(Tables()) && activations.rows == old(activations.rows)
      ensures |report.iterations| <= maxIterations && |report.iterations| <= |batches|
      ensures StopsAtFirst(report.iterations)
      ensures NoNewsRepeats(report.iterations, batches)
      ensures |report.iterations| < |batches| && |report.iterations| < maxIterations ==>
        report.iterations != [] && Stopped(report.iterations[|report.iterations| - 1])
      ensures report.totalProposals == |proposals.rows| == |old(proposals.rows)| + Created(report.iterations)
      ensures report.totalActivated == if Activations.Current(activations.rows).Some? then 1 else 0
    {
      var iterations := RunBatches(batches, scores, if |batches| < maxIterations then |batches| else maxIterations);
      var current := Activations.Current(activations.rows);
      report := LoopReport(iterations, |proposals.rows|, if current.Some? then 1 else 0);
    }
  }

  /** One batch of injected benchmark results. */
  datatype Batch = Batch(results: seq<FailureMiner.EvaluationResult>)

  /** Every iteration accounts for what it created, and only the last may have stopped. */
  ghost predicate StopsAtFirst(iterations: seq<IterationReport>) {
    && (forall i :: 0 <= i < |iterations| ==> Accounted(iterations[i]))
    && forall i :: 0 <= i < |iterations| - 1 ==> !Stopped(iterations[i])
  }

  /** An iteration over a batch seen before creates nothing and stops. */
  ghost predicate NoNewsRepeats(iterations: seq<IterationReport>, batches: seq<Batch>) {
    |iterations| <= |batches| &&
    forall j :: 0 <= j < |iterations| && Seen(batches, j) ==>
      iterations[j].proposalsCreated == 0 && Stopped(iterations[j])
  }

  /** The batch at n occurs before n. */
  ghost predicate Seen(batches: seq<Batch>, n: nat)
    requires n < |batches|
  {
    exists i :: 0 <= i < n && batches[i] == batches[n]
  }

  lemma NoNewsSnoc(iterations: seq<IterationReport>, r: IterationReport, batches: seq<Batch>)
    requires NoNewsRepeats(iterations, batches) && |iterations| < |batches|
    requires Seen(batches, |iterations|) ==> r.proposalsCreated == 0 && Stopped(r)
    ensures NoNewsRepeats(iterations + [r], batches)
  {
    var longer := iterations + [r];
    forall j | 0 <= j < |longer| && Seen(batches, j) ensures longer[j].proposalsCreated == 0 && Stopped(longer[j]) {
      if j < |iterations| {
        assert longer[j] == iterations[j];
      }
    }
  }

  lemma {:induction false} StopsSnoc(iterations: seq<IterationReport>, r: IterationReport)
    requires StopsAtFirst(iterations) && Accounted(r)
    requires iterations != [] ==> !Stopped(iterations[|iterations| - 1])
    ensures StopsAtFirst(iterations + [r])
    ensures Created(iterations + [r]) == Created(iterations) + r.proposalsCreated
  {
    TakeAll(iterations, r);
  }

  /** So a run is over, at the latest, with the second of two identical batches. */
  lemma {:induction false} SecondIdenticalBatchIsLast(iterations: seq<IterationReport>, batches: seq<Batch>, i: nat,
                                                      j: nat)
    requires StopsAtFirst(iterations) && NoNewsRepeats(iterations, batches)
    requires i < j < |batches| && batches[i] == batches[j]
    ensures |iterations| <= j + 1
  {
    assert Seen(batches, j);
  }

  function Created(iterations: seq<IterationReport>): nat {
    if iterations == [] then 0 else
      Created(iterations[..|iterations| - 1]) + iterations[|iterations| - 1].proposalsCreated
  }

  /** New rows by what became of them. */
  datatype Outcomes = Outcomes(submitted: int, validated: int, validationFailures: int, regressionFailures: int)

  function Plus(a: Outcomes, b: Outcomes): Outcomes {
    Outcomes(a.submitted + b.submitted, a.validated + b.validated,
             a.validationFailures + b.validationFailures, a.regressionFailures + b.regressionFailures)
  }

  function OutcomeOf(p: Proposal): Outcomes {
    match FateOf(p)
    case Submitted(v) => Outcomes(1, if v then 1 else 0, 0, 0)
    case RegressionFailed(v) => Outcomes(0, if v then 1 else 0, 0, 1)
    case _ => Outcomes(0, 0, 1, 0)
  }

  function OutcomesOf(rows: seq<Proposal>): Outcomes {
    if rows == [] then Outcomes(0, 0, 0, 0) else
      Plus(OutcomesOf(rows[..|rows| - 1]), OutcomeOf(rows[|rows| - 1]))
  }

  /** The places of the rows that came to this. */
  function With(rows: seq<Proposal>, fate: Fate): set<nat> {
    set i: nat | i < |rows| && FateOf(rows[i]) == fate
  }

  lemma WithSnoc(front: seq<Proposal>, last: Proposal, fate: Fate)
    ensures |With(front + [last], fate)| == |With(front, fate)| + if FateOf(last) == fate then 1 else 0
  {
    assert With(front + [last], fate) == With(front, fate) + if FateOf(last) == fate then {|front|} else {};
  }

  /** The counters count rows: those waiting for review, those that passed validation, and those each check failed. */
  lemma {:induction false} OutcomesAre(rows: seq<Proposal>)
    ensures var o := OutcomesOf(rows);
            && o.submitted == |With(rows, Submitted(true))| + |With(rows, Submitted(false))|
            && o.validated == |With(rows, Submitted(true))| + |With(rows, RegressionFailed(true))|
            && o.validationFailures == |With(rows, ValidationFailed)|
            && o.regressionFailures == |With(rows, RegressionFailed(true))| + |With(rows, RegressionFailed(false))|
    decreases |rows|
  {
    if rows == [] {
      forall fate ensures With(rows, fate) == {} {
      }
    } else {
      var front, last := rows[..|rows| - 1], rows[|rows| - 1];
      OutcomesAre(front);
      FrontAndLast(rows);
      WithSnoc(front, last, Submitted(true));
      WithSnoc(front, last, Submitted(false));
      WithSnoc(front, last, RegressionFailed(true));
      WithSnoc(front, last, RegressionFailed(false));
      WithSnoc(front, last, ValidationFailed);
    }
  }

  ghost predicate AllSettled(rows: seq<Proposal>, scores: Scores) {
    forall i :: 0 <= i < |rows| ==> Settled(rows[i], scores)
  }

  /** Between two reports, this many candidates were handled and this many clusters refused. */
  predicate Handled(r: IterationReport, r': IterationReport, candidates: nat, refused: nat) {
    && r'.proposalsCreated + r'.duplicatesSuppressed == r.proposalsCreated + r.duplicatesSuppressed + candidates
    && r'.unsafeRejected == r.unsafeRejected + refused
  }

  predicate SameInput(a: IterationReport, b: IterationReport) {
    a.signals == b.signals && a.quarantined == b.quarantined && a.clusters == b.clusters && a.ignored == b.ignored
  }

  /** The table grew by what the report says was created, and the new rows bear out its counters. */
  ghost predicate Grown(before: seq<Proposal>, after: seq<Proposal>, scores: Scores, r: IterationReport,
                        r': IterationReport) {
    && Extends(before, after) && r.proposalsCreated <= r'.proposalsCreated
    && |after| == |before| + r'.proposalsCreated - r.proposalsCreated
    && OutcomesOf(after[|before|..]) == Since(r, r')
    && AllSettled(after[|before|..], scores)
    && r'.stopReason == r.stopReason
  }

  /** A report on what was appended to the table, counter by counter. */
  ghost predicate Reported(before: seq<Proposal>, after: seq<Proposal>, scores: Scores, r: IterationReport) {
    && Extends(before, after) && |after| == |before| + r.proposalsCreated
    && OutcomesOf(after[|before|..]) == Outcomes(r.submitted, r.validated, r.validationFailures, r.regressionFailures)
    && AllSettled(after[|before|..], scores)
  }

  /** All counters of proposals are zero. */
  predicate Blank(r: IterationReport) {
    && r.proposalsCreated == r.submitted == r.validated == r.validationFailures == r.regressionFailures == 0
    && r.duplicatesSuppressed == r.unsafeRejected == 0 && r.stopReason == None
  }

  lemma GrownIsReported(before: seq<Proposal>, after: seq<Proposal>, scores: Scores,
                                          start: IterationReport, r: IterationReport, reason: Option<StopReason>)
    requires Blank(start) && Grown(before, after, scores, start, r)
    ensures Reported(before, after, scores, r.(stopReason := reason))
  {
  }

  lemma NothingGrows(rows: seq<Proposal>, scores: Scores, r: IterationReport)
    ensures Grown(rows, rows, scores, r, r)
  {
    assert rows[|rows|..] == [];
  }

  // ----- which rows a list of candidates becomes -----

  function Hashes(rows: seq<Proposal>): set<Hash> {
    set p | p in rows :: p.contentHash
  }

  function HashesOf(cs: seq<Candidate>): set<Hash> {
    set c | c in cs :: c.contentHash
  }

  /** The candidates whose hash has not been seen, each with its first occurrence; the empty hash is never seen. */
  function New(seen: set<Hash>, cs: seq<Candidate>): seq<Candidate>
    decreases |cs|
  {
    if cs == [] then []
    else if cs[0].contentHash.text != "" && cs[0].contentHash in seen then New(seen, cs[1..])
    else [cs[0]] + New(seen + {cs[0].contentHash}, cs[1..])
  }

  ghost predicate Made(rows: seq<Proposal>, cs: seq<Candidate>) {
    |rows| == |cs| && forall i :: 0 <= i < |rows| ==> MadeFrom(rows[i], cs[i])
  }

  /** The rows appended to a table are made, one by one and in order, from the candidates that are new to it. */
  ghost predicate MadeOf(before: seq<Proposal>, after: seq<Proposal>, cs: seq<Candidate>) {
    Extends(before, after) && Made(after[|before|..], New(Hashes(before), cs))
  }

  lemma NothingMade(rows: seq<Proposal>)
    ensures MadeOf(rows, rows, [])
  {
    assert rows[|rows|..] == [];
  }

  lemma OneMade(before: seq<Proposal>, after: seq<Proposal>, c: Candidate, row: Proposal)
    requires HasHash(before, c.contentHash) ==> after == before
    requires !HasHash(before, c.contentHash) ==> after == before + [row] && MadeFrom(row, c)
    ensures MadeOf(before, after, [c])
  {
    assert [c][1..] == [];
    if HasHash(before, c.contentHash) {
      NothingMade(before);
    } else {
      assert after[|before|..] == [row];
    }
  }

  lemma {:induction false} NewConcat(seen: set<Hash>, a: seq<Candidate>, b: seq<Candidate>)
    ensures New(seen, a + b) == New(seen, a) + New(seen + HashesOf(a), b)
    decreases |a|
  {
    if a == [] {
      NilLeft(b);
      NilLeft(New(seen, b));
      assert seen + HashesOf(a) == seen;
    } else {
      var seen' := seen + {a[0].contentHash};
      ConsConcat(a, b);
      assert a == [a[0]] + a[1..];
      assert seen + HashesOf(a) == seen' + HashesOf(a[1..]);
      NewConcat(seen, a[1..], b);
      NewConcat(seen', a[1..], b);
      if a[0].contentHash in seen {
        assert seen' == seen;
      }
      Associate([a[0]], New(seen', a[1..]), New(seen' + HashesOf(a[1..]), b));
    }
  }

  lemma {:induction false} NewHashes(seen: set<Hash>, cs: seq<Candidate>)
    ensures seen + HashesOf(New(seen, cs)) == seen + HashesOf(cs)
    decreases |cs|
  {
    if cs != [] {
      var seen' := seen + {cs[0].contentHash};
      assert cs == [cs[0]] + cs[1..];
      NewHashes(seen, cs[1..]);
      NewHashes(seen', cs[1..]);
      assert HashesOf([cs[0]] + New(seen', cs[1..])) == {cs[0].contentHash} + HashesOf(New(seen', cs[1..]));
      assert HashesOf(cs) == {cs[0].contentHash} + HashesOf(cs[1..]);
    }
  }

  lemma {:induction false} NothingNew(seen: set<Hash>, cs: seq<Candidate>)
    requires forall c :: c in cs ==> c.contentHash.text != "" && c.contentHash in seen
    ensures New(seen, cs) == []
  {
    if cs != [] {
      NothingNew(seen, cs[1..]);
    }
  }

  lemma MadeHashes(before: seq<Proposal>, after: seq<Proposal>, cs: seq<Candidate>)
    requires MadeOf(before, after, cs)
    ensures Hashes(after) == Hashes(before) + HashesOf(cs)
  {
    var made, rows := New(Hashes(before), cs), after[|before|..];
    NewHashes(Hashes(before), cs);
    assert after == before + rows;
    assert Hashes(rows) == HashesOf(made) by {
      forall h ensures h in Hashes(rows) <==> h in HashesOf(made) {
        if p :| p in rows && p.contentHash == h {
          assert made[IndexOf(rows, p)] in made;
        }
        if c :| c in made && c.contentHash == h {
          assert rows[IndexOf(made, c)] in rows;
        }
      }
    }
    assert Hashes(after) == Hashes(before) + Hashes(rows);
  }

  lemma MadeTransitive(a: seq<Proposal>, b: seq<Proposal>, c: seq<Proposal>, cs: seq<Candidate>, ds: seq<Candidate>)
    requires MadeOf(a, b, cs) && MadeOf(b, c, ds)
    ensures MadeOf(a, c, cs + ds)
  {
    MadeHashes(a, b, cs);
    NewConcat(Hashes(a), cs, ds);
    assert c[..|a|] == b[..|a|];
    assert c[|a|..] == b[|a|..] + c[|b|..];
  }

  /** What a report says came of the rows made since another. */
  function Since(r: IterationReport, r': IterationReport): Outcomes {
    Outcomes(r'.submitted - r.submitted, r'.validated - r.validated,
             r'.validationFailures - r.validationFailures, r'.regressionFailures - r.regressionFailures)
  }

  /** Counting a row in the report by what became of it. */
  lemma TallyIs(r: IterationReport, p: Proposal)
    requires Accounted(r)
    ensures var r' := Tally(r, FateOf(p));
            && Since(r, r') == OutcomeOf(p)
            && r'.proposalsCreated == r.proposalsCreated + 1 && r'.stopReason == r.stopReason
            && Accounted(r') && SameInput(r, r') && Handled(r, r', 1, 0)
  {
  }

  lemma {:induction false} OneRow(before: seq<Proposal>, p: Proposal, scores: Scores)
    requires Settled(p, scores)
    ensures (before + [p])[|before|..] == [p] && Extends(before, before + [p])
    ensures OutcomesOf([p]) == OutcomeOf(p) && AllSettled([p], scores)
  {
    assert [p][..0] == [];
    assert OutcomesOf([]) == Outcomes(0, 0, 0, 0);
  }

  /** The effect of one candidate on the table and on the report. */
  lemma {:induction false} TallyGrows(before: seq<Proposal>, after: seq<Proposal>, scores: Scores, r: IterationReport,
                                      fate: Fate, row: Proposal)
    requires Accounted(r)
    requires fate == Duplicate ==> after == before
    requires fate != Duplicate ==> after == before + [row] && Settled(row, scores) && fate == FateOf(row)
    ensures Grown(before, after, scores, r, Tally(r, fate))
    ensures Accounted(Tally(r, fate)) && SameInput(r, Tally(r, fate)) && Handled(r, Tally(r, fate), 1, 0)
  {
    if fate == Duplicate {
      assert after[|before|..] == [];
    } else {
      TallyIs(r, row);
      OneRow(before, row, scores);
    }
  }

  lemma {:induction false} OutcomesConcat(a: seq<Proposal>, b: seq<Proposal>)
    ensures OutcomesOf(a + b) == Plus(OutcomesOf(a), OutcomesOf(b))
  {
    if b == [] {
      assert a + b == a;
    } else {
      assert (a + b)[..|a + b| - 1] == a + b[..|b| - 1];
      OutcomesConcat(a, b[..|b| - 1]);
    }
  }

  lemma GrownTransitive(a: seq<Proposal>, b: seq<Proposal>, c: seq<Proposal>, scores: Scores,
                                          r: IterationReport, r': IterationReport, r'': IterationReport)
    requires Grown(a, b, scores, r, r') && Grown(b, c, scores, r', r'')
    ensures Grown(a, c, scores, r, r'')
  {
    assert c[..|a|] == b[..|a|];
    assert c[|a|..] == b[|a|..] + c[|b|..];
    OutcomesConcat(b[|a|..], c[|b|..]);
  }

  /** Submitting the draft in the last row changes that row only. */
  lemma SubmitStep(s: State, base: seq<Proposal>, p: Proposal)
    requires Governed(s) && s.proposals == base + [p] && p.status == Draft
    ensures
      var q := Moved(p, PendingReview, "loop", None, None);
      && TableAfter(s.proposals, SubmitOutcome(s.proposals, p.id, "loop")) == base + [q]
      && Governed(s.(proposals := base + [q]))
  {
    SubmitIs(s.proposals, base, p);
    ApplyKeeps(s, SubmitOp(p.id, "loop"));
  }

  lemma SubmitIs(rows: seq<Proposal>, base: seq<Proposal>, p: Proposal)
    requires rows == base + [p] && UniqueProposals(rows) && p.status == Draft
    ensures SubmitOutcome(rows, p.id, "loop") == Ok(base + [Moved(p, PendingReview, "loop", None, None)])
  {
    UpdateLast(base, p, Moved(p, PendingReview, "loop", None, None));
  }

  lemma NotFound(rows: seq<Proposal>, id: ProposalId)
    requires id !in IdSet(rows)
    ensures Find(rows, id).None?
  {
  }
}
