/** Improvement proposals: their states, their table, and the store that changes it. */
module Proposals {
  import opened Seqs
  import Text

  datatype Status = Draft | PendingReview | Approved | Rejected | Activated | RolledBack

  function Transitions(frm: Status): set<Status> {
    match frm
    case Draft => {PendingReview}
    case PendingReview => {Approved, Rejected}
    case Approved => {Activated, RolledBack}
    case Activated => {RolledBack}
    case Rejected => {}
    case RolledBack => {}
  }

  predicate CanTransition(frm: Status, to: Status) {
    to in Transitions(frm)
  }

  /** Ids and hashes are compared and tested for emptiness, never taken apart. */
  datatype ProposalId = ProposalId(text: string)
  datatype Hash = Hash(text: string)

  /** The columns no operation below looks into. */
  datatype Body = Body(title: string, description: string, clusterId: string, riskScore: real,
                       validationPlan: seq<string>, content: string)

  /** `BenchmarkDelta` and `RegressionDelta`: the evidence stored with a proposal. */
  datatype Benchmark = Benchmark(suite: string, before: real, after: real, casesRun: int)
  datatype Regression = Regression(suite: string, failuresBefore: int, failuresAfter: int, passed: bool)

  datatype Proposal = Proposal(
    id: ProposalId,
    kind: string,
    body: Body,
    contentHash: Hash,
    status: Status,
    benchmark: Option<Benchmark>,
    regression: Option<Regression>,
    submittedBy: string,
    reviewedBy: Option<string>,
    reviewNote: Option<string>,
    rejectionReason: Option<string>,
    version: nat)

  datatype Error =
    | UnknownProposal
    | ActivationOnly
    | RollbackOnly
    | IllegalTransition(frm: Status, to: Status)
    | NotApproved
    | NoActiveVersion
    | NoReviewer
    | NoReason

  datatype Result<+T> = Ok(value: T) | Err(error: Error)

  /** The `via` argument of `transition`. */
  datatype Via = Plain | ViaActivation | ViaRollback

  // ----- the table, in insertion order -----

  /** `SELECT * ... WHERE id=?` */
  function Find(rows: seq<Proposal>, id: ProposalId): (r: Option<Proposal>)
    ensures r.Some? ==> r.value in rows && r.value.id == id
    ensures r.None? ==> forall p :: p in rows ==> p.id != id
  {
    if rows == [] then None
    else if rows[0].id == id then Some(rows[0])
    else
      assert rows == [rows[0]] + rows[1..];
      Find(rows[1..], id)
  }

  /** `find_by_hash`: the empty hash matches nothing. */
  function FindByHash(rows: seq<Proposal>, hash: Hash): (r: Option<Proposal>)
    ensures r.Some? ==> r.value in rows && r.value.contentHash == hash && hash.text != ""
    ensures r.None? && hash.text != "" ==> forall p :: p in rows ==> p.contentHash != hash
  {
    if rows == [] || hash.text == "" then None
    else if rows[0].contentHash == hash then Some(rows[0])
    else
      assert rows == [rows[0]] + rows[1..];
      FindByHash(rows[1..], hash)
  }

  /** `UPDATE ... WHERE id=?`; the statement of `save` leaves the kind alone. */
  function Update(rows: seq<Proposal>, p: Proposal): (r: seq<Proposal>)
    ensures |r| == |rows|
    ensures forall i :: 0 <= i < |rows| ==> r[i] == if rows[i].id == p.id then p.(kind := rows[i].kind) else rows[i]
  {
    seq(|rows|, i requires 0 <= i < |rows| => if rows[i].id == p.id then p.(kind := rows[i].kind) else rows[i])
  }

  /** The proposal object as `transition` leaves it before saving. */
  function Moved(p: Proposal, to: Status, actor: string, note: Option<string>, reason: Option<string>): Proposal {
    var q := p.(status := to, version := p.version + 1);
    var submitted := if to == PendingReview then q.(submittedBy := actor) else q;
    var reviewed := if to == Approved || to == Rejected
                    then submitted.(reviewedBy := Some(actor), reviewNote := note) else submitted;
    if to == Rejected then reviewed.(rejectionReason := Some(FirstText(reason, note, "rejected"))) else reviewed
  }

  /** The reason if it says anything, else the note, else the default. */
  function FirstText(reason: Option<string>, note: Option<string>, default: string): string {
    if reason.Some? && reason.value != "" then reason.value
    else if note.Some? && note.value != "" then note.value
    else default
  }

  function TransitionOf(rows: seq<Proposal>, id: ProposalId, to: Status, actor: string, note: Option<string>,
                        reason: Option<string>, via: Via): Result<seq<Proposal>>
  {
    var found := Find(rows, id);
    if found.None? then Err(UnknownProposal)
    else if to == Activated && via != ViaActivation then Err(ActivationOnly)
    else if to == RolledBack && via != ViaRollback then Err(RollbackOnly)
    else if !CanTransition(found.value.status, to) then Err(IllegalTransition(found.value.status, to))
    else Ok(Update(rows, Moved(found.value, to, actor, note, reason)))
  }

  // ----- what every table reachable through the store satisfies -----

  ghost predicate UniqueProposals(rows: seq<Proposal>) {
    forall i, j :: 0 <= i < j < |rows| ==> rows[i].id != rows[j].id
  }

  ghost predicate UniqueHashes(rows: seq<Proposal>) {
    forall i, j :: 0 <= i < j < |rows| && rows[i].contentHash.text != "" ==> rows[i].contentHash != rows[j].contentHash
  }

  /** The version column counts the transitions, and so is fixed by the status. */
  function VersionOf(status: Status): nat {
    match status
    case Draft => 1
    case PendingReview => 2
    case Approved => 3
    case Rejected => 3
    case Activated => 4
    case RolledBack => 5
  }

  /** Past the gate a proposal names its reviewer, and a rejection its reason. */
  predicate Attributable(p: Proposal) {
    && (p.status in {Approved, Rejected, Activated, RolledBack} ==> p.reviewedBy.Some? && p.reviewedBy.value != "")
    && (p.status == Rejected ==> p.rejectionReason.Some? && p.rejectionReason.value != "")
  }

  ghost predicate TableOk(rows: seq<Proposal>) {
    && UniqueProposals(rows) && UniqueHashes(rows)
    && forall p :: p in rows ==> p.version == VersionOf(p.status) && Attributable(p)
  }

  /** Ids of the table. */
  ghost function IdSet(rows: seq<Proposal>): set<ProposalId> {
    set p | p in rows :: p.id
  }

  // ----- fresh ids -----

  /** The k-th id `create` tries: the digest itself, then digest_2, digest_3, ... */
  function Candidate(base: ProposalId, k: nat): ProposalId
    requires k >= 1
  {
    if k == 1 then base else ProposalId(base.text + "_" + Text.NatText(k))
  }

  lemma {:induction false} CandidatesDiffer(base: ProposalId, j: nat, k: nat)
    requires 1 <= j < k
    ensures Candidate(base, j) != Candidate(base, k)
  {
    var n := |base.text| + 1;
    if j == 1 {
      assert |Candidate(base, k).text| >= n;
    } else if Candidate(base, j) == Candidate(base, k) {
      assert Text.NatText(j) == Candidate(base, j).text[n..];
      assert Text.NatText(k) == Candidate(base, k).text[n..];
      Text.NatTextInjective(j, k);
    }
  }

  ghost function Tried(base: ProposalId, k: nat): set<ProposalId> {
    set j | 1 <= j <= k :: Candidate(base, j)
  }

  lemma {:induction false} TriedSize(base: ProposalId, k: nat)
    ensures |Tried(base, k)| == k
  {
    if k > 0 {
      TriedSize(base, k - 1);
      forall j | 1 <= j < k ensures Candidate(base, j) != Candidate(base, k) {
        CandidatesDiffer(base, j, k);
      }
      assert Tried(base, k) == Tried(base, k - 1) + {Candidate(base, k)};
    }
  }

  lemma {:induction false} IdSetSize(rows: seq<Proposal>)
    ensures |IdSet(rows)| <= |rows|
  {
    if rows != [] {
      var front, last := rows[..|rows| - 1], rows[|rows| - 1];
      assert rows == front + [last];
      IdSetSize(front);
      assert IdSet(rows) == IdSet(front) + {last.id};
    }
  }

  /** The suffix search cannot outrun a finite table. */
  lemma {:induction false} TriedBound(rows: seq<Proposal>, base: ProposalId, k: nat)
    requires forall j :: 1 <= j <= k ==> Candidate(base, j) in IdSet(rows)
    ensures k <= |rows|
  {
    TriedSize(base, k);
    IdSetSize(rows);
    SubsetSize(Tried(base, k), IdSet(rows));
  }

  /** `id` is free, and every candidate tried before it is taken. */
  ghost predicate FirstFree(rows: seq<Proposal>, base: ProposalId, id: ProposalId) {
    && id !in IdSet(rows)
    && exists k :: k >= 1 && id == Candidate(base, k) && Tried(base, k - 1) <= IdSet(rows)
  }

  /** The suffix loop of `create`: it always ends, on the first free candidate. */
  method FreshId(rows: seq<Proposal>, base: ProposalId) returns (finalId: ProposalId)
    ensures FirstFree(rows, base, finalId)
  {
    var suffix := 1;
    finalId := base;
    while Find(rows, finalId).Some?
      invariant suffix >= 1 && finalId == Candidate(base, suffix)
      invariant forall j :: 1 <= j < suffix ==> Candidate(base, j) in IdSet(rows)
      decreases |rows| + 1 - suffix
    {
      TriedBound(rows, base, suffix);
      suffix := suffix + 1;
      finalId := ProposalId(base.text + "_" + Text.NatText(suffix));
    }
    assert Tried(base, suffix - 1) <= IdSet(rows);
  }

  class ProposalStore {
    var rows: seq<Proposal>
    /** `proposal_id_for`: a digest of kind, cluster id and hash (or title), otherwise unknown. */
    const idFor: (string, string, string) -> ProposalId

    constructor (idFor: (string, string, string) -> ProposalId)
      ensures rows == [] && TableOk(rows) && this.idFor == idFor
    {
      this.idFor := idFor;
      rows := [];
    }

    /** A duplicate leaves the table alone and returns the row already there. Otherwise one draft is
        appended under the first free candidate id. */
    method Create(kind: string, body: Body, contentHash: Hash, submittedBy: string)
      returns (proposal: Proposal, created: bool)
      modifies this
      ensures created <==> FindByHash(old(rows), contentHash).None?
      ensures !created ==> rows == old(rows) && proposal == FindByHash(old(rows), contentHash).value
      ensures created ==>
        && proposal == NewDraft(proposal.id, kind, body, contentHash, submittedBy)
        && rows == old(rows) + [proposal]
      ensures created ==>
        var base := idFor(kind, body.clusterId, if contentHash.text != "" then contentHash.text else body.title);
        FirstFree(old(rows), base, proposal.id)
      ensures old(TableOk(rows)) ==> TableOk(rows)
    {
      var existing := FindByHash(rows, contentHash);
      if existing.Some? {
        return existing.value, false;
      }
      var base := idFor(kind, body.clusterId, if contentHash.text != "" then contentHash.text else body.title);
      var finalId := FreshId(rows, base);
      proposal, created := NewDraft(finalId, kind, body, contentHash, submittedBy), true;
      AppendKeepsTable(rows, proposal);
      rows := rows + [proposal];
    }

    /** Writes every mutable column of the row with this id from the object, its status included. */
    method Save(proposal: Proposal) returns (refreshed: Option<Proposal>)
      modifies this
      ensures rows == Update(old(rows), proposal)
      ensures refreshed == Find(rows, proposal.id)
    {
      rows := Update(rows, proposal);
      refreshed := Find(rows, proposal.id);
    }

    method Transition(id: ProposalId, to: Status, actor: string, note: Option<string>, reason: Option<string>, via: Via)
      returns (r: Result<Proposal>)
      modifies this
      ensures
        var outcome := TransitionOf(old(rows), id, to, actor, note, reason, via);
        && (outcome.Ok? ==> rows == outcome.value && r.Ok? && Some(r.value) == Find(rows, id))
        && (outcome.Err? ==> rows == old(rows) && r == Err(outcome.error))
    {
      var found := Find(rows, id);
      if found.None? {
        return Err(UnknownProposal);
      }
      if to == Activated && via != ViaActivation {
        return Err(ActivationOnly);
      }
      if to == RolledBack && via != ViaRollback {
        return Err(RollbackOnly);
      }
      if !CanTransition(found.value.status, to) {
        return Err(IllegalTransition(found.value.status, to));
      }
      var proposal := Moved(found.value, to, actor, note, reason);
      UpdateFinds(rows, proposal);
      var refreshed := Save(proposal);
      return Ok(refreshed.value);
    }
  }

  function NewDraft(id: ProposalId, kind: string, body: Body, contentHash: Hash, submittedBy: string): Proposal {
    Proposal(id, kind, body, contentHash, Draft, None, None, submittedBy, None, None, None, 1)
  }

  lemma {:induction false} UpdateFinds(rows: seq<Proposal>, p: Proposal)
    requires Find(rows, p.id).Some?
    ensures Find(Update(rows, p), p.id).Some?
  {
    var i :| 0 <= i < |rows| && rows[i] == Find(rows, p.id).value;
    assert Update(rows, p)[i].id == p.id;
  }

  lemma {:induction false} AppendKeepsTable(rows: seq<Proposal>, p: Proposal)
    requires p.status == Draft && p.version == 1
    requires p.id !in IdSet(rows) && FindByHash(rows, p.contentHash).None?
    ensures TableOk(rows) ==> TableOk(rows + [p])
  {
    assert forall i :: 0 <= i < |rows| ==> rows[i] in rows && rows[i].id in IdSet(rows);
  }
}
