/** Every run of the gate, activation and rollback: what the two tables keep. */
module GovernanceRuns {
  import opened Seqs
  import opened Proposals
  import opened Activations
  import opened Governance
  import Text

  // ----- the invariant of the two tables -----

  /** No proposal owns two activation rows. */
  ghost predicate OneRowEach(activations: seq<Activation>) {
    forall i, j :: 0 <= i < j < |activations| ==> activations[i].proposalId != activations[j].proposalId
  }

  /** Every row's owner exists, and its status says whether the row was rolled back. */
  ghost predicate RowsOwned(proposals: seq<Proposal>, activations: seq<Activation>) {
    forall i :: 0 <= i < |activations| ==>
      var owner := Find(proposals, activations[i].proposalId);
      owner.Some? && owner.value.status == if activations[i].rolledBack then RolledBack else Activated
  }

  ghost predicate HasRow(activations: seq<Activation>, id: ProposalId) {
    exists i :: 0 <= i < |activations| && activations[i].proposalId == id
  }

  predicate OwnsNothing(status: Status) {
    status != Activated && status != RolledBack
  }

  ghost predicate OwnersHaveRows(proposals: seq<Proposal>, activations: seq<Activation>) {
    forall p :: p in proposals && !OwnsNothing(p.status) ==> HasRow(activations, p.id)
  }

  /** A proposal is activated or rolled back exactly while it owns its one row. */
  ghost predicate StoresAgree(s: State) {
    && OneRowEach(s.activations)
    && RowsOwned(s.proposals, s.activations)
    && OwnersHaveRows(s.proposals, s.activations)
  }

  ghost predicate Governed(s: State) {
    TableOk(s.proposals) && StackOk(s.activations) && StoresAgree(s)
  }

  // ----- runs -----

  datatype Op =
    | CreateOp(id: ProposalId, kind: string, body: Body, contentHash: Hash, submittedBy: string)
    | SubmitOp(id: ProposalId, actor: string)
    | ApproveOp(id: ProposalId, reviewer: string, note: Option<string>)
    | RejectOp(id: ProposalId, reviewer: string, reason: string)
    | EvidenceOp(id: ProposalId, benchmark: Option<Benchmark>, regression: Option<Regression>)
    | ActivateOp(id: ProposalId, actor: string)
    | RollbackOp(actor: string, note: Option<string>)

  /** `create` with the id it settles on; an id already taken is never settled on. */
  function CreateOutcome(rows: seq<Proposal>, op: Op): seq<Proposal>
    requires op.CreateOp?
  {
    if FindByHash(rows, op.contentHash).Some? || Find(rows, op.id).Some? then rows
    else rows + [NewDraft(op.id, op.kind, op.body, op.contentHash, op.submittedBy)]
  }

  /** Read the row, attach evidence to the object, `save` it: a fresh snapshot. */
  function EvidenceOutcome(rows: seq<Proposal>, op: Op): seq<Proposal>
    requires op.EvidenceOp?
  {
    var found := Find(rows, op.id);
    if found.None? then rows
    else Update(rows, found.value.(benchmark := op.benchmark, regression := op.regression))
  }

  function Apply(s: State, op: Op): State {
    match op
    case CreateOp(_, _, _, _, _) => s.(proposals := CreateOutcome(s.proposals, op))
    case SubmitOp(id, actor) => s.(proposals := TableAfter(s.proposals, SubmitOutcome(s.proposals, id, actor)))
    case ApproveOp(id, reviewer, note) =>
      s.(proposals := TableAfter(s.proposals, ApproveOutcome(s.proposals, id, reviewer, note)))
    case RejectOp(id, reviewer, reason) =>
      s.(proposals := TableAfter(s.proposals, RejectOutcome(s.proposals, id, reviewer, reason)))
    case EvidenceOp(_, _, _) => s.(proposals := EvidenceOutcome(s.proposals, op))
    case ActivateOp(id, actor) => ActivateOutcome(s, id, actor).0
    case RollbackOp(actor, note) => RollbackOutcome(s, actor, note).0
  }

  function Run(s: State, ops: seq<Op>): State
    decreases |ops|
  {
    if ops == [] then s else Run(Apply(s, ops[0]), ops[1..])
  }

  const EMPTY := State([], [])

  // ----- one row of the proposal table changes -----

  lemma {:induction false} FindUpdate(rows: seq<Proposal>, q: Proposal, id: ProposalId)
    requires Find(rows, q.id).Some?
    ensures Find(Update(rows, q), id) ==
      if id == q.id then Some(q.(kind := Find(rows, id).value.kind)) else Find(rows, id)
  {
    assert Update(rows, q)[1..] == Update(rows[1..], q);
    if rows[0].id != q.id {
      FindUpdate(rows[1..], q, id);
    } else if rows[0].id != id {
      FindOther(rows[1..], q, id);
    }
  }

  lemma {:induction false} FindOther(rows: seq<Proposal>, q: Proposal, id: ProposalId)
    requires id != q.id
    ensures Find(Update(rows, q), id) == Find(rows, id)
  {
    if rows != [] {
      assert Update(rows, q)[1..] == Update(rows[1..], q);
      FindOther(rows[1..], q, id);
    }
  }

  /** What may be written over a row without leaving the table's invariant. */
  ghost predicate Replaces(rows: seq<Proposal>, q: Proposal) {
    && Find(rows, q.id).Some? && q.contentHash == Find(rows, q.id).value.contentHash
    && q.version == VersionOf(q.status) && Attributable(q)
  }

  lemma {:induction false} UniqueFind(rows: seq<Proposal>, i: nat)
    requires UniqueProposals(rows) && i < |rows|
    ensures Find(rows, rows[i].id) == Some(rows[i])
  {
    assert rows[i] in rows;
    var found := Find(rows, rows[i].id).value;
    var j := IndexOf(rows, found);
  }

  lemma {:induction false} UpdateKeepsTable(rows: seq<Proposal>, q: Proposal)
    requires TableOk(rows) && Replaces(rows, q)
    ensures TableOk(Update(rows, q))
  {
    var after := Update(rows, q);
    forall i | 0 <= i < |rows|
      ensures after[i].id == rows[i].id && after[i].contentHash == rows[i].contentHash
    {
      UniqueFind(rows, i);
    }
    forall p | p in after ensures p.version == VersionOf(p.status) && Attributable(p) {
      var i := IndexOf(after, p);
      assert rows[i] in rows;
    }
  }

  lemma {:induction false} OwnersKeepRows(rows: seq<Proposal>, q: Proposal, before: seq<Activation>,
                                          after: seq<Activation>)
    requires OwnersHaveRows(rows, before) && Find(rows, q.id).Some?
    requires !OwnsNothing(q.status) ==> HasRow(after, q.id)
    requires forall id :: HasRow(before, id) ==> HasRow(after, id)
    ensures OwnersHaveRows(Update(rows, q), after)
  {
    forall p | p in Update(rows, q) && !OwnsNothing(p.status) ensures HasRow(after, p.id) {
      var k := IndexOf(Update(rows, q), p);
      assert rows[k] in rows;
    }
  }

  /** Writing a row that owned nothing and still owns nothing keeps the stores in agreement. */
  lemma {:induction false} UpdateKeepsAgreement(s: State, q: Proposal)
    requires StoresAgree(s) && UniqueProposals(s.proposals) && Find(s.proposals, q.id).Some?
    requires OwnsNothing(Find(s.proposals, q.id).value.status) && OwnsNothing(q.status)
    ensures StoresAgree(s.(proposals := Update(s.proposals, q)))
  {
    var after := Update(s.proposals, q);
    forall i | 0 <= i < |s.activations|
      ensures Find(after, s.activations[i].proposalId) == Find(s.proposals, s.activations[i].proposalId)
    {
      FindUpdate(s.proposals, q, s.activations[i].proposalId);
    }
    OwnersKeepRows(s.proposals, q, s.activations, s.activations);
  }

  // ----- each operation keeps the invariant -----

  lemma MovedReplaces(p: Proposal, to: Status, actor: string, note: Option<string>, reason: Option<string>)
    requires p.version == VersionOf(p.status) && Attributable(p) && CanTransition(p.status, to) && OwnsNothing(to)
    requires to in {Approved, Rejected} ==> actor != ""
    ensures
      var q := Moved(p, to, actor, note, reason);
      && q.id == p.id && q.contentHash == p.contentHash && q.status == to
      && q.version == VersionOf(to) && Attributable(q)
  {
  }

  /** A row that owned nothing, overwritten by one that owns nothing. */
  lemma {:induction false} OverwriteKeeps(s: State, p: Proposal, q: Proposal)
    requires Governed(s) && Find(s.proposals, q.id) == Some(p) && OwnsNothing(p.status) && OwnsNothing(q.status)
    requires q.contentHash == p.contentHash && q.version == VersionOf(q.status) && Attributable(q)
    ensures Governed(s.(proposals := Update(s.proposals, q)))
  {
    assert TableOk(Update(s.proposals, q)) by {
      UpdateKeepsTable(s.proposals, q);
    }
    UpdateKeepsAgreement(s, q);
  }

  lemma {:induction false} TransitionKeeps(s: State, id: ProposalId, to: Status, actor: string, note: Option<string>,
                                          reason: Option<string>, via: Via)
    requires Governed(s) && OwnsNothing(to)
    requires to in {Approved, Rejected} ==> actor != ""
    ensures Governed(s.(proposals := TableAfter(s.proposals,
      TransitionOf(s.proposals, id, to, actor, note, reason, via))))
  {
    var r := TransitionOf(s.proposals, id, to, actor, note, reason, via);
    if r.Ok? {
      var p := Find(s.proposals, id).value;
      MovedReplaces(p, to, actor, note, reason);
      OverwriteKeeps(s, p, Moved(p, to, actor, note, reason));
    }
  }

  lemma {:induction false} CreateKeeps(s: State, op: Op)
    requires Governed(s) && op.CreateOp?
    ensures Governed(Apply(s, op))
  {
    var rows, after := s.proposals, CreateOutcome(s.proposals, op);
    if after != rows {
      var p := NewDraft(op.id, op.kind, op.body, op.contentHash, op.submittedBy);
      AppendKeepsTable(rows, p);
      forall i | 0 <= i < |s.activations|
        ensures Find(after, s.activations[i].proposalId) == Find(rows, s.activations[i].proposalId)
      {
        FindAppend(rows, p, s.activations[i].proposalId);
      }
    }
  }

  lemma {:induction false} FindAppend(rows: seq<Proposal>, p: Proposal, id: ProposalId)
    requires Find(rows, id).Some?
    ensures Find(rows + [p], id) == Find(rows, id)
  {
    assert (rows + [p])[1..] == rows[1..] + [p];
    if rows[0].id != id {
      FindAppend(rows[1..], p, id);
    }
  }

  /** New evidence in a row is all `save` changes between two transitions. */
  lemma {:induction false} NewEvidenceKeeps(s: State, p: Proposal, q: Proposal)
    requires Governed(s) && Find(s.proposals, p.id) == Some(p)
    requires q == p.(benchmark := q.benchmark, regression := q.regression)
    ensures Governed(s.(proposals := Update(s.proposals, q)))
  {
    UpdateKeepsTable(s.proposals, q);
    UpdateSameStatus(s, q);
  }

  lemma EvidenceKeeps(s: State, op: Op)
    requires Governed(s) && op.EvidenceOp?
    ensures Governed(Apply(s, op))
  {
    var found := Find(s.proposals, op.id);
    if found.Some? {
      NewEvidenceKeeps(s, found.value, found.value.(benchmark := op.benchmark, regression := op.regression));
    }
  }

  /** Rewriting a row without touching its status keeps the agreement. */
  lemma {:induction false} UpdateSameStatus(s: State, q: Proposal)
    requires StoresAgree(s) && Find(s.proposals, q.id).Some? && q.status == Find(s.proposals, q.id).value.status
    ensures StoresAgree(s.(proposals := Update(s.proposals, q)))
  {
    var after := Update(s.proposals, q);
    forall i | 0 <= i < |s.activations|
      ensures Find(after, s.activations[i].proposalId).Some?
      ensures Find(after, s.activations[i].proposalId).value.status
        == Find(s.proposals, s.activations[i].proposalId).value.status
    {
      FindUpdate(s.proposals, q, s.activations[i].proposalId);
    }
    OwnersKeepRows(s.proposals, q, s.activations, s.activations);
  }

  /** The transition made after the commit of `activate` never raises. */
  lemma {:induction false} ActivateKeeps(s: State, id: ProposalId, actor: string)
    requires Governed(s)
    ensures Governed(ActivateOutcome(s, id, actor).0)
    ensures ActivateOutcome(s, id, actor).1.Ok?
      <==> Find(s.proposals, id).Some? && Find(s.proposals, id).value.status == Approved
    ensures ActivateOutcome(s, id, actor).1.Err? ==> ActivateOutcome(s, id, actor).0 == s
  {
    var found := Find(s.proposals, id);
    if found.Some? && found.value.status == Approved {
      ActivateIs(s, id, actor, found.value);
      ActivatedKeeps(s, id, actor, found.value);
    }
  }

  lemma ActivateIs(s: State, id: ProposalId, actor: string, p: Proposal)
    requires Find(s.proposals, id) == Some(p) && p.status == Approved
    ensures ActivateOutcome(s, id, actor).0
         == State(Update(s.proposals, Moved(p, Activated, ActorOrLoop(actor), None, None)),
                  Push(s.activations, id, ActorOrLoop(actor)))
    ensures ActivateOutcome(s, id, actor).1 == Ok(Push(s.activations, id, ActorOrLoop(actor))[|s.activations|])
  {
  }

  lemma {:induction false} ActivatedKeeps(s: State, id: ProposalId, actor: string, p: Proposal)
    requires Governed(s) && Find(s.proposals, id) == Some(p) && p.status == Approved
    ensures Governed(State(Update(s.proposals, Moved(p, Activated, ActorOrLoop(actor), None, None)),
                           Push(s.activations, id, ActorOrLoop(actor))))
  {
    var who := ActorOrLoop(actor);
    var q := Moved(p, Activated, who, None, None);
    assert Replaces(s.proposals, q) by {
      assert p.version == VersionOf(Approved) && Attributable(p);
    }
    UpdateKeepsTable(s.proposals, q);
    PushPushes(s.activations, id, who);
    PushedAgrees(s, id, who, q);
  }

  lemma {:induction false} PushedAgrees(s: State, id: ProposalId, who: string, q: Proposal)
    requires StackOk(s.activations) && StoresAgree(s) && UniqueProposals(s.proposals)
    requires Find(s.proposals, id).Some? && Find(s.proposals, id).value.status == Approved
    requires q.id == id && q.status == Activated
    ensures StoresAgree(State(Update(s.proposals, q), Push(s.activations, id, who)))
  {
    PushRows(s.activations, Live(s.activations), id, who);
    ActivationAgrees(s, Push(s.activations, id, who), q);
  }

  lemma {:induction false} ActivationAgrees(s: State, pushed: seq<Activation>, q: Proposal)
    requires StoresAgree(s) && UniqueProposals(s.proposals)
    requires Find(s.proposals, q.id).Some? && OwnsNothing(Find(s.proposals, q.id).value.status) && q.status == Activated
    requires |pushed| == |s.activations| + 1 && pushed[|s.activations|].proposalId == q.id
    requires !pushed[|s.activations|].rolledBack
    requires forall i :: 0 <= i < |s.activations| ==> pushed[i] == s.activations[i].(active := false)
    ensures StoresAgree(State(Update(s.proposals, q), pushed))
  {
    assert RowsOwned(Update(s.proposals, q), pushed) by {
      NewRowOwned(s, pushed, q);
    }
    assert OneRowEach(pushed) by {
      assert forall i :: 0 <= i < |s.activations| ==> s.activations[i].proposalId != q.id;
      OneMoreRow(s.activations, pushed);
    }
    assert OwnersHaveRows(Update(s.proposals, q), pushed) by {
      NewRowHad(s.activations, pushed);
      OwnersKeepRows(s.proposals, q, s.activations, pushed);
    }
  }

  lemma OneMoreRow(before: seq<Activation>, after: seq<Activation>)
    requires OneRowEach(before) && |after| == |before| + 1
    requires forall i :: 0 <= i < |before| ==> after[i].proposalId == before[i].proposalId
    requires forall i :: 0 <= i < |before| ==> before[i].proposalId != after[|before|].proposalId
    ensures OneRowEach(after)
  {
  }

  lemma {:induction false} NewRowHad(before: seq<Activation>, after: seq<Activation>)
    requires |after| == |before| + 1
    requires forall i :: 0 <= i < |before| ==> after[i].proposalId == before[i].proposalId
    ensures HasRow(after, after[|before|].proposalId)
    ensures forall id :: HasRow(before, id) ==> HasRow(after, id)
  {
    forall id | HasRow(before, id) ensures HasRow(after, id) {
      var i :| 0 <= i < |before| && before[i].proposalId == id;
      assert after[i].proposalId == id;
    }
  }

  lemma {:induction false} NewRowOwned(s: State, pushed: seq<Activation>, q: Proposal)
    requires RowsOwned(s.proposals, s.activations) && Find(s.proposals, q.id).Some?
    requires OwnsNothing(Find(s.proposals, q.id).value.status) && q.status == Activated
    requires |pushed| == |s.activations| + 1 && pushed[|s.activations|].proposalId == q.id
    requires !pushed[|s.activations|].rolledBack
    requires forall i :: 0 <= i < |s.activations| ==> pushed[i] == s.activations[i].(active := false)
    ensures RowsOwned(Update(s.proposals, q), pushed)
  {
    forall i | 0 <= i < |pushed|
      ensures
        var owner := Find(Update(s.proposals, q), pushed[i].proposalId);
        owner.Some? && owner.value.status == if pushed[i].rolledBack then RolledBack else Activated
    {
      FindUpdate(s.proposals, q, pushed[i].proposalId);
      if i < |s.activations| {
        assert pushed[i].proposalId == s.activations[i].proposalId;
      }
    }
  }

  /** Nor does the one made after the commit of `rollback`: the active row's owner is activated. */
  lemma {:induction false} RollbackKeeps(s: State, actor: string, note: Option<string>)
    requires Governed(s)
    ensures Governed(RollbackOutcome(s, actor, note).0)
    ensures RollbackOutcome(s, actor, note).1.Ok? <==> Live(s.activations) != []
    ensures RollbackOutcome(s, actor, note).1.Err? ==> RollbackOutcome(s, actor, note).0 == s
  {
    CurrentIsTop(s.activations, Live(s.activations));
    if Live(s.activations) != [] {
      RollbackSucceeds(s, actor, note);
    }
  }

  lemma {:induction false} RollbackSucceeds(s: State, actor: string, note: Option<string>)
    requires Governed(s) && Current(s.activations).Some?
    ensures RollbackOutcome(s, actor, note).1.Ok? && Governed(RollbackOutcome(s, actor, note).0)
  {
    var top, owner := TopOwner(s);
    var q := Moved(owner, RolledBack, ActorOrLoop(actor), note, None);
    RollbackIs(s, actor, note, owner);
    RolledBackReplaces(s, owner, actor, note);
    UpdateKeepsTable(s.proposals, q);
    PopPops(s.activations);
    PoppedAgrees(s, top, q);
  }

  lemma {:induction false} RolledBackReplaces(s: State, owner: Proposal, actor: string, note: Option<string>)
    requires TableOk(s.proposals) && Find(s.proposals, owner.id) == Some(owner) && owner.status == Activated
    ensures Replaces(s.proposals, Moved(owner, RolledBack, ActorOrLoop(actor), note, None))
  {
    assert owner.version == VersionOf(Activated) && Attributable(owner);
  }

  lemma {:induction false} PoppedAgrees(s: State, top: nat, q: Proposal)
    requires StackOk(s.activations) && StoresAgree(s) && UniqueProposals(s.proposals)
    requires Current(s.activations).Some? && Live(s.activations) != []
    requires top < |s.activations| && top + 1 == Live(s.activations)[|Live(s.activations)| - 1]
    requires q.id == s.activations[top].proposalId && q.status == RolledBack
    ensures StoresAgree(State(Update(s.proposals, q), Pop(s.activations, Current(s.activations).value)))
  {
    PopRows(s.activations, Live(s.activations));
    RollbackAgrees(s, Pop(s.activations, Current(s.activations).value), top, q);
  }

  /** The transition after the commit succeeds when the row's owner is activated. */
  lemma RollbackIs(s: State, actor: string, note: Option<string>, owner: Proposal)
    requires Current(s.activations).Some? && Find(s.proposals, Current(s.activations).value.proposalId) == Some(owner)
    requires owner.status == Activated
    ensures RollbackOutcome(s, actor, note).0
         == State(Update(s.proposals, Moved(owner, RolledBack, ActorOrLoop(actor), note, None)),
                  Pop(s.activations, Current(s.activations).value))
    ensures RollbackOutcome(s, actor, note).1
         == Ok(Restored(RollbackOutcome(s, actor, note).0.activations, Current(s.activations).value.previous, actor))
  {
  }

  /** The active row belongs to an activated proposal. */
  lemma {:induction false} TopOwner(s: State) returns (top: nat, owner: Proposal)
    requires Governed(s) && Current(s.activations).Some?
    ensures top < |s.activations| && s.activations[top] == Current(s.activations).value
    ensures Live(s.activations) != [] && top + 1 == Live(s.activations)[|Live(s.activations)| - 1]
    ensures Find(s.proposals, Current(s.activations).value.proposalId) == Some(owner)
    ensures owner in s.proposals && owner.status == Activated
  {
    var live := Live(s.activations);
    CurrentIsTop(s.activations, live);
    top := live[|live| - 1] - 1;
    assert !s.activations[top].rolledBack;
    owner := Find(s.proposals, s.activations[top].proposalId).value;
  }

  lemma {:induction false} RollbackAgrees(s: State, popped: seq<Activation>, top: nat, q: Proposal)
    requires StoresAgree(s) && UniqueProposals(s.proposals) && top < |s.activations|
    requires q.id == s.activations[top].proposalId && q.status == RolledBack
    requires |popped| == |s.activations|
    requires forall i :: 0 <= i < |popped| ==>
      && popped[i].proposalId == s.activations[i].proposalId
      && popped[i].rolledBack == (s.activations[i].rolledBack || i == top)
    ensures StoresAgree(State(Update(s.proposals, q), popped))
  {
    var after := Update(s.proposals, q);
    forall i | 0 <= i < |popped|
      ensures Find(after, popped[i].proposalId).Some?
      ensures Find(after, popped[i].proposalId).value.status == if popped[i].rolledBack then RolledBack else Activated
    {
      FindUpdate(s.proposals, q, popped[i].proposalId);
      assert i != top ==> s.activations[i].proposalId != s.activations[top].proposalId;
    }
    forall id | HasRow(s.activations, id) ensures HasRow(popped, id) {
      var i :| 0 <= i < |popped| && s.activations[i].proposalId == id;
      assert popped[i].proposalId == id;
    }
    OwnersKeepRows(s.proposals, q, s.activations, popped);
  }

  lemma ApplyKeeps(s: State, op: Op)
    requires Governed(s)
    ensures Governed(Apply(s, op))
  {
    match op
    case CreateOp(_, _, _, _, _) => CreateKeeps(s, op);
    case EvidenceOp(_, _, _) => EvidenceKeeps(s, op);
    case ActivateOp(_, _) => ActivateOpKeeps(s, op);
    case RollbackOp(_, _) => RollbackOpKeeps(s, op);
    case _ => GateKeeps(s, op);
  }

  lemma GateKeeps(s: State, op: Op)
    requires Governed(s) && (op.SubmitOp? || op.ApproveOp? || op.RejectOp?)
    ensures Governed(Apply(s, op))
  {
    match op
    case SubmitOp(id, actor) => TransitionKeeps(s, id, PendingReview, actor, None, None, Plain);
    case ApproveOp(id, reviewer, note) => ApproveKeeps(s, id, reviewer, note);
    case RejectOp(id, reviewer, reason) => RejectKeeps(s, id, reviewer, reason);
  }

  lemma ActivateOpKeeps(s: State, op: Op)
    requires Governed(s) && op.ActivateOp?
    ensures Governed(Apply(s, op))
  {
    ActivateKeeps(s, op.id, op.actor);
  }

  lemma RollbackOpKeeps(s: State, op: Op)
    requires Governed(s) && op.RollbackOp?
    ensures Governed(Apply(s, op))
  {
    RollbackKeeps(s, op.actor, op.note);
  }

  lemma {:induction false} ApproveKeeps(s: State, id: ProposalId, reviewer: string, note: Option<string>)
    requires Governed(s)
    ensures Governed(s.(proposals := TableAfter(s.proposals, ApproveOutcome(s.proposals, id, reviewer, note))))
  {
    var named := Text.Strip(reviewer);
    if named != "" {
      TransitionKeeps(s, id, Approved, named, note, None, Plain);
    }
  }

  lemma {:induction false} RejectKeeps(s: State, id: ProposalId, reviewer: string, reason: string)
    requires Governed(s)
    ensures Governed(s.(proposals := TableAfter(s.proposals, RejectOutcome(s.proposals, id, reviewer, reason))))
  {
    var named, why := Text.Strip(reviewer), Text.Strip(reason);
    if named != "" && why != "" {
      TransitionKeeps(s, id, Rejected, named, Some(why), Some(why), Plain);
    }
  }

  /** The two tables agree in every reachable state. */
  lemma {:induction false} EveryRunIsGoverned(s: State, ops: seq<Op>)
    requires Governed(s)
    ensures Governed(Run(s, ops))
    decreases |ops|
  {
    if ops != [] {
      ApplyKeeps(s, ops[0]);
      EveryRunIsGoverned(Apply(s, ops[0]), ops[1..]);
    }
  }

  lemma {:induction false} ReachableIsGoverned(ops: seq<Op>)
    ensures Governed(Run(EMPTY, ops))
  {
    EveryRunIsGoverned(EMPTY, ops);
  }

  // ----- consequences over every run -----

  /** How many rows of a proposal are, or are not, rolled back. */
  ghost function RowsOf(activations: seq<Activation>, id: ProposalId, rolledBack: bool): nat {
    |set i | 0 <= i < |activations| && activations[i].proposalId == id && activations[i].rolledBack == rolledBack|
  }

  /** A proposal is ACTIVATED iff it owns exactly one row not rolled back, ROLLED_BACK iff it owns
      exactly one rolled-back row; otherwise it owns none. Its version is fixed by its status. */
  lemma {:induction false} OwnershipIsStatus(s: State, p: Proposal)
    requires Governed(s) && p in s.proposals
    ensures RowsOf(s.activations, p.id, false) == if p.status == Activated then 1 else 0
    ensures RowsOf(s.activations, p.id, true) == if p.status == RolledBack then 1 else 0
    ensures p.version == VersionOf(p.status)
  {
    UniqueFind(s.proposals, IndexOf(s.proposals, p));
    if !OwnsNothing(p.status) {
      assert HasRow(s.activations, p.id);
      var i :| 0 <= i < |s.activations| && s.activations[i].proposalId == p.id;
      OnlyRow(s, i, false);
      OnlyRow(s, i, true);
    } else {
      NoRow(s, p, false);
      NoRow(s, p, true);
    }
  }

  lemma {:induction false} OnlyRow(s: State, i: nat, rolledBack: bool)
    requires OneRowEach(s.activations) && i < |s.activations|
    ensures RowsOf(s.activations, s.activations[i].proposalId, rolledBack) ==
      if s.activations[i].rolledBack == rolledBack then 1 else 0
  {
    var a := s.activations;
    var owned := set k | 0 <= k < |a| && a[k].proposalId == a[i].proposalId && a[k].rolledBack == rolledBack;
    assert owned == if a[i].rolledBack == rolledBack then {i} else {};
  }

  lemma {:induction false} NoRow(s: State, p: Proposal, rolledBack: bool)
    requires RowsOwned(s.proposals, s.activations) && Find(s.proposals, p.id) == Some(p) && OwnsNothing(p.status)
    ensures RowsOf(s.activations, p.id, rolledBack) == 0
  {
    var a := s.activations;
    var owned := set k | 0 <= k < |a| && a[k].proposalId == p.id && a[k].rolledBack == rolledBack;
    assert owned == {};
  }

  /** The immutable part of a row. */
  predicate SameRecord(a: Activation, b: Activation) {
    a.version == b.version && a.proposalId == b.proposalId && a.previous == b.previous && a.actor == b.actor
  }

  /** Nothing recorded is ever removed or rewritten, and versions are never reused. */
  ghost predicate Retained(before: seq<Activation>, after: seq<Activation>) {
    |before| <= |after| && forall i :: 0 <= i < |before| ==> SameRecord(before[i], after[i])
  }

  /** Plus one for an activation that succeeds, minus one for a rollback that does. */
  function Delta(s: State, op: Op): int {
    match op
    case ActivateOp(id, actor) => if ActivateOutcome(s, id, actor).1.Ok? then 1 else 0
    case RollbackOp(actor, note) => if RollbackOutcome(s, actor, note).1.Ok? then -1 else 0
    case _ => 0
  }

  ghost predicate TableMoves(before: seq<Activation>, after: seq<Activation>, delta: int) {
    match delta
    case 1 => exists id, actor :: after == Push(before, id, actor)
    case -1 => Current(before).Some? && after == Pop(before, Current(before).value)
    case _ => after == before && delta == 0
  }

  /** The activation table moves by the transaction of `activate`, that of `rollback`, or not at all. */
  lemma {:induction false} ActivationStep(s: State, op: Op)
    requires Governed(s)
    ensures TableMoves(s.activations, Apply(s, op).activations, Delta(s, op))
  {
    match op
    case ActivateOp(id, actor) =>
      ActivateKeeps(s, id, actor);
      ActivateMoves(s, id, actor);
    case RollbackOp(actor, note) =>
      RollbackKeeps(s, actor, note);
      RollbackMoves(s, actor, note);
    case _ =>
  }

  lemma ActivateMoves(s: State, id: ProposalId, actor: string)
    ensures ActivateOutcome(s, id, actor).1.Ok? ==>
      ActivateOutcome(s, id, actor).0.activations == Push(s.activations, id, ActorOrLoop(actor))
  {
  }

  lemma RollbackMoves(s: State, actor: string, note: Option<string>)
    ensures RollbackOutcome(s, actor, note).1.Ok? ==>
      && Current(s.activations).Some?
      && RollbackOutcome(s, actor, note).0.activations == Pop(s.activations, Current(s.activations).value)
  {
  }

  lemma {:induction false} PushRetains(rows: seq<Activation>, id: ProposalId, actor: string)
    requires StackOk(rows)
    ensures Retained(rows, Push(rows, id, actor))
  {
    PushRows(rows, Live(rows), id, actor);
  }

  lemma {:induction false} PopRetains(rows: seq<Activation>)
    requires StackOk(rows) && Current(rows).Some?
    ensures Retained(rows, Pop(rows, Current(rows).value))
  {
    PopPops(rows);
    PopRows(rows, Live(rows));
  }

  lemma {:induction false} ApplyRetains(s: State, op: Op)
    requires Governed(s)
    ensures Retained(s.activations, Apply(s, op).activations)
  {
    ActivationStep(s, op);
    match Delta(s, op)
    case 1 =>
      var id, actor :| Apply(s, op).activations == Push(s.activations, id, actor);
      PushRetains(s.activations, id, actor);
    case -1 => PopRetains(s.activations);
    case _ =>
  }

  lemma {:induction false} HistoryIsRetained(s: State, ops: seq<Op>)
    requires Governed(s)
    ensures Retained(s.activations, Run(s, ops).activations)
    decreases |ops|
  {
    if ops != [] {
      ApplyKeeps(s, ops[0]);
      ApplyRetains(s, ops[0]);
      HistoryIsRetained(Apply(s, ops[0]), ops[1..]);
    }
  }

  /** The successful activations and rollbacks of a run, as +1 and -1. */
  function Deltas(s: State, ops: seq<Op>): seq<int>
    decreases |ops|
  {
    if ops == [] then [] else [Delta(s, ops[0])] + Deltas(Apply(s, ops[0]), ops[1..])
  }

  /** They match like brackets; `depth` are open before. */
  predicate Brackets(deltas: seq<int>, depth: nat) {
    if deltas == [] then depth == 0
    else depth + deltas[0] >= 0 && Brackets(deltas[1..], depth + deltas[0])
  }

  /** Operations that move nothing, and calls that raise, may stand anywhere between them. */
  ghost predicate Balanced(s: State, ops: seq<Op>) {
    Brackets(Deltas(s, ops), 0)
  }

  /** How a stack moves: +1 puts one version on top, -1 takes the top off, 0 leaves it. */
  predicate Moves(before: seq<nat>, after: seq<nat>, delta: int) {
    match delta
    case 1 => |after| == |before| + 1 && after[..|before|] == before
    case -1 => before != [] && after == before[..|before| - 1]
    case _ => after == before && delta == 0
  }

  /** One operation moves the stack of live versions by what `Delta` says. */
  lemma {:induction false} ApplyMovesStack(s: State, op: Op)
    requires Governed(s)
    ensures Moves(Live(s.activations), Live(Apply(s, op).activations), Delta(s, op))
  {
    ActivationStep(s, op);
    TableMovesStack(s.activations, Apply(s, op).activations, Delta(s, op));
  }

  lemma TableMovesStack(before: seq<Activation>, after: seq<Activation>, delta: int)
    requires StackOk(before) && TableMoves(before, after, delta)
    ensures Moves(Live(before), Live(after), delta)
  {
    match delta
    case 1 =>
      var id, actor :| after == Push(before, id, actor);
      PushPushes(before, id, actor);
    case -1 => PopPops(before);
    case _ =>
  }

  /** The stacks a run goes through. */
  function Stacks(s: State, ops: seq<Op>): seq<seq<nat>>
    decreases |ops|
  {
    [Live(s.activations)] + if ops == [] then [] else Stacks(Apply(s, ops[0]), ops[1..])
  }

  /** Each stack moves to the next as its delta says. */
  ghost predicate Traced(stacks: seq<seq<nat>>, deltas: seq<int>) {
    |stacks| == |deltas| + 1 && forall i :: 0 <= i < |deltas| ==> Moves(stacks[i], stacks[i + 1], deltas[i])
  }

  lemma {:induction false} RunIsTraced(s: State, ops: seq<Op>)
    requires Governed(s)
    ensures Traced(Stacks(s, ops), Deltas(s, ops))
    ensures Stacks(s, ops)[0] == Live(s.activations)
    ensures Stacks(s, ops)[|Stacks(s, ops)| - 1] == Live(Run(s, ops).activations)
    decreases |ops|
  {
    if ops != [] {
      ApplyKeeps(s, ops[0]);
      ApplyMovesStack(s, ops[0]);
      RunIsTraced(Apply(s, ops[0]), ops[1..]);
      ConsTraced(Live(s.activations), Stacks(Apply(s, ops[0]), ops[1..]),
                 Delta(s, ops[0]), Deltas(Apply(s, ops[0]), ops[1..]));
    }
  }

  lemma {:induction false} ConsTraced(first: seq<nat>, stacks: seq<seq<nat>>, d: int, deltas: seq<int>)
    requires Traced(stacks, deltas) && Moves(first, stacks[0], d)
    ensures Traced([first] + stacks, [d] + deltas)
  {
    forall i | 0 <= i < |deltas| + 1
      ensures Moves(([first] + stacks)[i], ([first] + stacks)[i + 1], ([d] + deltas)[i])
    {
      if i > 0 {
        assert Moves(stacks[i - 1], stacks[i], deltas[i - 1]);
      }
    }
  }

  /** What lies below the open activations is never touched. */
  lemma {:induction false} BracketsKeepFloor(stacks: seq<seq<nat>>, deltas: seq<int>, depth: nat)
    requires Traced(stacks, deltas) && Brackets(deltas, depth) && depth <= |stacks[0]|
    ensures stacks[|deltas|] == stacks[0][..|stacks[0]| - depth]
    decreases |deltas|
  {
    if deltas != [] {
      assert Moves(stacks[0], stacks[1], deltas[0]);
      var rest, later := deltas[1..], stacks[1..];
      forall i | 0 <= i < |rest| ensures Moves(later[i], later[i + 1], rest[i]) {
        assert Moves(stacks[i + 1], stacks[i + 2], deltas[i + 1]);
      }
      BracketsKeepFloor(later, rest, depth + deltas[0]);
    }
  }

  /** Any balanced run gives back the very same current record. */
  lemma {:induction false} BalancedRestoresCurrent(s: State, ops: seq<Op>)
    requires Governed(s) && Balanced(s, ops)
    ensures Current(Run(s, ops).activations) == Current(s.activations)
  {
    RunIsTraced(s, ops);
    BracketsKeepFloor(Stacks(s, ops), Deltas(s, ops), 0);
    assert Live(s.activations)[..|Live(s.activations)|] == Live(s.activations);
    EveryRunIsGoverned(s, ops);
    HistoryIsRetained(s, ops);
    SameStackSameCurrent(s.activations, Run(s, ops).activations);
  }

  lemma {:induction false} SameStackSameCurrent(before: seq<Activation>, after: seq<Activation>)
    requires StackOk(before) && StackOk(after) && Live(after) == Live(before) && Retained(before, after)
    ensures Current(after) == Current(before)
  {
    if Live(before) == [] {
      NoTopRow(before);
      NoTopRow(after);
    } else {
      var i := TopRow(before);
      var j := TopRow(after);
      SameTop(before, after, i);
    }
  }

  lemma SameTop(before: seq<Activation>, after: seq<Activation>, top: int)
    requires Retained(before, after) && 0 <= top < |before| && top < |after|
    requires before[top].active && after[top].active && !before[top].rolledBack && !after[top].rolledBack
    ensures after[top] == before[top]
  {
    assert SameRecord(before[top], after[top]);
  }

  lemma NoTopRow(rows: seq<Activation>)
    requires StackOk(rows) && Live(rows) == []
    ensures Current(rows).None?
  {
    CurrentIsTop(rows, Live(rows));
  }

  lemma {:induction false} TopRow(rows: seq<Activation>) returns (top: nat)
    requires StackOk(rows) && Live(rows) != []
    ensures top + 1 == Live(rows)[|Live(rows)| - 1] && top < |rows|
    ensures rows[top].active && !rows[top].rolledBack && Current(rows) == Some(rows[top])
  {
    CurrentIsTop(rows, Live(rows));
    top := Live(rows)[|Live(rows)| - 1] - 1;
  }

  // ----- calls that go past the operations: `transition` and `save` themselves -----

  /** The activation table fixes which of its two statuses the owner of a row has, in every table it agrees with. */
  lemma {:induction false} StatusIsFixed(before: seq<Proposal>, after: seq<Proposal>, activations: seq<Activation>,
                                         id: ProposalId)
    requires StoresAgree(State(before, activations)) && StoresAgree(State(after, activations))
    requires Find(before, id).Some? && Find(after, id).Some?
    ensures var p, q := Find(before, id).value.status, Find(after, id).value.status;
            p == q || (OwnsNothing(p) && OwnsNothing(q))
  {
    assert HasRow(activations, id) <==> !OwnsNothing(Find(before, id).value.status);
    assert HasRow(activations, id) <==> !OwnsNothing(Find(after, id).value.status);
  }

  lemma NewOwnerBreaksAgreement(s: State, q: Proposal)
    requires Governed(s) && Find(s.proposals, q.id).Some? && !OwnsNothing(q.status)
    requires q.status != Find(s.proposals, q.id).value.status
    ensures !Governed(s.(proposals := Update(s.proposals, q)))
  {
    SaveKeepsAgreementIff(s, q);
  }

  lemma {:induction false} UnattributedBreaksTable(rows: seq<Proposal>, q: Proposal)
    requires Find(rows, q.id).Some? && !Attributable(q)
    ensures !TableOk(Update(rows, q))
  {
    FindUpdate(rows, q, q.id);
    assert Find(Update(rows, q), q.id).value in Update(rows, q);
  }

  lemma {:induction false} TransitionToOwnerBreaks(s: State, id: ProposalId, to: Status, actor: string,
                                                   note: Option<string>, reason: Option<string>, via: Via)
    requires Governed(s) && TransitionOf(s.proposals, id, to, actor, note, reason, via).Ok? && !OwnsNothing(to)
    ensures !Governed(s.(proposals := TransitionOf(s.proposals, id, to, actor, note, reason, via).value))
  {
    var p := Find(s.proposals, id).value;
    assert p.status != to;
    NewOwnerBreaksAgreement(s, Moved(p, to, actor, note, reason));
  }

  lemma {:induction false} UnnamedDecisionBreaks(rows: seq<Proposal>, id: ProposalId, to: Status, note: Option<string>,
                                                 reason: Option<string>, via: Via)
    requires TransitionOf(rows, id, to, "", note, reason, via).Ok? && to in {Approved, Rejected}
    ensures !TableOk(TransitionOf(rows, id, to, "", note, reason, via).value)
  {
    UnattributedBreaksTable(rows, Moved(Find(rows, id).value, to, "", note, reason));
  }

  /**
   * A call of `transition` that goes through, whatever `via` it passes, leaves both tables in order exactly
   * when its target owns no activation row and a decision names its actor. So neither `via` may be passed
   * by anyone but `activate` and `rollback`, and the edge APPROVED to ROLLED_BACK by no one.
   */
  lemma {:induction false} TransitionKeepsIff(s: State, id: ProposalId, to: Status, actor: string, note: Option<string>,
                                            reason: Option<string>, via: Via)
    requires Governed(s) && TransitionOf(s.proposals, id, to, actor, note, reason, via).Ok?
    ensures Governed(s.(proposals := TransitionOf(s.proposals, id, to, actor, note, reason, via).value))
       <==> OwnsNothing(to) && (to in {Approved, Rejected} ==> actor != "")
  {
    if !OwnsNothing(to) {
      TransitionToOwnerBreaks(s, id, to, actor, note, reason, via);
    } else if to in {Approved, Rejected} && actor == "" {
      UnnamedDecisionBreaks(s.proposals, id, to, note, reason, via);
    } else {
      TransitionKeeps(s, id, to, actor, note, reason, via);
    }
  }

  /** Saving any object over its row keeps the agreement of the two tables exactly when its status is the
      row's, or neither of the two owns an activation. */
  lemma {:induction false} SaveKeepsAgreementIff(s: State, q: Proposal)
    requires StoresAgree(s) && UniqueProposals(s.proposals) && Find(s.proposals, q.id).Some?
    ensures StoresAgree(s.(proposals := Update(s.proposals, q))) <==>
      var now := Find(s.proposals, q.id).value.status;
      q.status == now || (OwnsNothing(q.status) && OwnsNothing(now))
  {
    var now, after := Find(s.proposals, q.id).value.status, s.(proposals := Update(s.proposals, q));
    if q.status == now {
      UpdateSameStatus(s, q);
    } else if OwnsNothing(q.status) && OwnsNothing(now) {
      UpdateKeepsAgreement(s, q);
    } else if StoresAgree(after) {
      FindUpdate(s.proposals, q, q.id);
      StatusIsFixed(s.proposals, after.proposals, s.activations, q.id);
    }
  }

  /** No other row has the hash of this object. */
  ghost predicate HashIsFree(rows: seq<Proposal>, q: Proposal) {
    q.contentHash.text == "" || forall p :: p in rows && p.contentHash == q.contentHash ==> p.id == q.id
  }

  /** Saving any object over its row keeps the invariant of the proposal table exactly when its version is that
      of its status, a decision names its reviewer, and no other row has its hash. */
  lemma {:induction false} SaveKeepsTableIff(rows: seq<Proposal>, q: Proposal)
    requires TableOk(rows) && Find(rows, q.id).Some?
    ensures TableOk(Update(rows, q)) <==> q.version == VersionOf(q.status) && Attributable(q) && HashIsFree(rows, q)
  {
    var after, k := Update(rows, q), IndexOf(rows, Find(rows, q.id).value);
    assert after[k] in after;
    if TableOk(after) {
      forall p | p in rows && p.contentHash == q.contentHash && q.contentHash.text != "" ensures p.id == q.id {
        var i := IndexOf(rows, p);
      }
    } else if HashIsFree(rows, q) {
      forall i, j | 0 <= i < j < |rows| && after[i].contentHash.text != ""
        ensures after[i].contentHash != after[j].contentHash
      {
        assert rows[i] in rows && rows[j] in rows;
      }
    }
  }

  // ----- a stale object, saved -----

  const STALE_ID := ProposalId("prop_1")

  /** Create, submit and approve one proposal. */
  const UNTIL_APPROVED: seq<Op> := [
    CreateOp(STALE_ID, "skill", Body("title", "description", "cluster", 0.0, ["plan"], "content"),
             Hash("digest"), "loop"),
    SubmitOp(STALE_ID, "loop"),
    ApproveOp(STALE_ID, "alice", None)]

  const ACTIVATION := ActivateOp(STALE_ID, "alice")

  lemma {:induction false} OneRowMoves(p: Proposal, to: Status, actor: string, note: Option<string>,
                                       reason: Option<string>, via: Via)
    requires CanTransition(p.status, to) && (to == Activated ==> via == ViaActivation)
      && (to == RolledBack ==> via == ViaRollback)
    ensures TransitionOf([p], p.id, to, actor, note, reason, via) == Ok([Moved(p, to, actor, note, reason)])
  {
    assert Update([p], Moved(p, to, actor, note, reason)) == [Moved(p, to, actor, note, reason)];
  }

  lemma {:induction false} RunSnoc(s: State, ops: seq<Op>, op: Op)
    ensures Run(s, ops + [op]) == Apply(Run(s, ops), op)
    decreases |ops|
  {
    if ops == [] {
      NilLeft([op]);
      assert [op][1..] == [];
    } else {
      ConsConcat(ops, [op]);
      RunSnoc(Apply(s, ops[0]), ops[1..], op);
    }
  }

  lemma CreatedAlone(create: Op)
    requires create.CreateOp?
    ensures CreateOutcome([], create)
      == [NewDraft(create.id, create.kind, create.body, create.contentHash, create.submittedBy)]
  {
  }

  lemma {:induction false} AliceIsNamed()
    ensures Text.Strip("alice") == "alice"
  {
    assert !Text.IsSpace("alice"[0]) && !Text.IsSpace("alice"[4]);
  }

  lemma {:induction false} RunThree(first: Op, second: Op, third: Op)
    ensures Run(EMPTY, [first, second, third]) == Apply(Apply(Apply(EMPTY, first), second), third)
  {
    RunSnoc(EMPTY, [], first);
    RunSnoc(EMPTY, [first], second);
    RunSnoc(EMPTY, [first, second], third);
    assert [] + [first] == [first] && [first] + [second] == [first, second];
    assert [first, second] + [third] == [first, second, third];
  }

  lemma {:induction false} ApprovedRun(create: Op, submit: Op, approve: Op) returns (r: Proposal)
    requires create.CreateOp?
    requires submit == SubmitOp(create.id, "loop") && approve == ApproveOp(create.id, "alice", None)
    ensures r.id == create.id && r.status == Approved && Run(EMPTY, [create, submit, approve]) == State([r], [])
  {
    var p := NewDraft(create.id, create.kind, create.body, create.contentHash, create.submittedBy);
    var q := Moved(p, PendingReview, "loop", None, None);
    r := Moved(q, Approved, "alice", None, None);
    RunThree(create, submit, approve);
    CreatedAlone(create);
    OneRowMoves(p, PendingReview, "loop", None, None, Plain);
    OneRowMoves(q, Approved, "alice", None, None, Plain);
    AliceIsNamed();
  }

  /** One approved proposal, activated; then the snapshot read before is saved. */
  lemma {:induction false} StaleSaveFrom(p: Proposal, actor: string)
    requires Governed(State([p], [])) && p.status == Approved
    ensures var now := Apply(State([p], []), ActivateOp(p.id, actor));
            && Governed(now) && Find(now.proposals, p.id).Some? && Find(now.proposals, p.id).value.status == Activated
            && !StoresAgree(now.(proposals := Update(now.proposals, p)))
  {
    var s, now := State([p], []), Apply(State([p], []), ActivateOp(p.id, actor));
    ActivateKeeps(s, p.id, actor);
    ActivateIs(s, p.id, actor, p);
    var q := Moved(p, Activated, ActorOrLoop(actor), None, None);
    assert now.proposals == [q] by {
      assert Update([p], q) == [q];
    }
    SavedBackBreaks(now, p);
  }

  lemma SavedBackBreaks(now: State, p: Proposal)
    requires Governed(now) && p.status == Approved
    requires Find(now.proposals, p.id).Some? && Find(now.proposals, p.id).value.status == Activated
    ensures !StoresAgree(now.(proposals := Update(now.proposals, p)))
  {
    SaveKeepsAgreementIff(now, p);
  }

  /**
   * An approved proposal that was never activated, rolled back by a caller of `transition` that passes the `via`
   * of `rollback` itself: the call goes through, and the proposal owns no row of the activation table.
   */
  lemma {:induction false} TransitionTrustsVia()
    ensures var s := Run(EMPTY, UNTIL_APPROVED);
            var r := TransitionOf(s.proposals, STALE_ID, RolledBack, "alice", None, None, ViaRollback);
            Governed(s) && r.Ok? && !StoresAgree(s.(proposals := r.value))
  {
    var p := ApprovedRun(UNTIL_APPROVED[0], UNTIL_APPROVED[1], UNTIL_APPROVED[2]);
    ReachableIsGoverned(UNTIL_APPROVED);
    OneRowMoves(p, RolledBack, "alice", None, None, ViaRollback);
    var s, q := State([p], []), Moved(p, RolledBack, "alice", None, None);
    assert Update([p], q) == [q] && Find([p], q.id) == Some(p);
    SaveKeepsAgreementIff(s, q);
  }

  /** The snapshot read while the proposal was approved, saved after it was activated. */
  lemma {:induction false} StaleSaveBreaksAgreement()
    ensures var read, now := Run(EMPTY, UNTIL_APPROVED), Run(EMPTY, UNTIL_APPROVED + [ACTIVATION]);
            && Find(read.proposals, STALE_ID).Some? && Find(read.proposals, STALE_ID).value.status == Approved
            && Find(now.proposals, STALE_ID).Some? && Find(now.proposals, STALE_ID).value.status == Activated
            && Governed(now)
            && !StoresAgree(now.(proposals := Update(now.proposals, Find(read.proposals, STALE_ID).value)))
  {
    var p := ApprovedRun(UNTIL_APPROVED[0], UNTIL_APPROVED[1], UNTIL_APPROVED[2]);
    ReachableIsGoverned(UNTIL_APPROVED);
    RunSnoc(EMPTY, UNTIL_APPROVED, ACTIVATION);
    StaleSaveFrom(p, "alice");
    assert Find([p], STALE_ID) == Some(p);
  }
}
