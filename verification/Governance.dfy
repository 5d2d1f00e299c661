/** The approval gate, versioned activation and rollback over the two tables. */
module Governance {
  import opened Seqs
  import opened Proposals
  import opened Activations
  import Text

  datatype State = State(proposals: seq<Proposal>, activations: seq<Activation>)

  // ----- the approval gate -----

  function SubmitOutcome(rows: seq<Proposal>, id: ProposalId, actor: string): Result<seq<Proposal>> {
    TransitionOf(rows, id, PendingReview, actor, None, None, Plain)
  }

  function ApproveOutcome(rows: seq<Proposal>, id: ProposalId, reviewer: string, note: Option<string>)
    : Result<seq<Proposal>>
  {
    if Text.Strip(reviewer) == "" then Err(NoReviewer)
    else TransitionOf(rows, id, Approved, Text.Strip(reviewer), note, None, Plain)
  }

  function RejectOutcome(rows: seq<Proposal>, id: ProposalId, reviewer: string, reason: string): Result<seq<Proposal>> {
    if Text.Strip(reviewer) == "" then Err(NoReviewer)
    else if Text.Strip(reason) == "" then Err(NoReason)
    else TransitionOf(rows, id, Rejected, Text.Strip(reviewer),
                      Some(Text.Strip(reason)), Some(Text.Strip(reason)), Plain)
  }

  function TableAfter(rows: seq<Proposal>, r: Result<seq<Proposal>>): seq<Proposal> {
    if r.Ok? then r.value else rows
  }

  /** The error of the outcome, or the row as it is stored now. */
  predicate Answers(r: Result<Proposal>, outcome: Result<seq<Proposal>>, rows: seq<Proposal>, id: ProposalId) {
    match outcome
    case Err(e) => r == Err(e)
    case Ok(_) => r.Ok? && Find(rows, id) == Some(r.value)
  }

  method SubmitForReview(store: ProposalStore, id: ProposalId, actor: string) returns (r: Result<Proposal>)
    modifies store
    ensures store.rows == TableAfter(old(store.rows), SubmitOutcome(old(store.rows), id, actor))
    ensures Answers(r, SubmitOutcome(old(store.rows), id, actor), store.rows, id)
  {
    r := store.Transition(id, PendingReview, actor, None, None, Plain);
  }

  method Approve(store: ProposalStore, id: ProposalId, reviewer: string, note: Option<string>)
    returns (r: Result<Proposal>)
    modifies store
    ensures store.rows == TableAfter(old(store.rows), ApproveOutcome(old(store.rows), id, reviewer, note))
    ensures Answers(r, ApproveOutcome(old(store.rows), id, reviewer, note), store.rows, id)
  {
    var named := Text.Strip(reviewer);
    if named == "" {
      return Err(NoReviewer);
    }
    r := store.Transition(id, Approved, named, note, None, Plain);
  }

  method Reject(store: ProposalStore, id: ProposalId, reviewer: string, reason: string) returns (r: Result<Proposal>)
    modifies store
    ensures store.rows == TableAfter(old(store.rows), RejectOutcome(old(store.rows), id, reviewer, reason))
    ensures Answers(r, RejectOutcome(old(store.rows), id, reviewer, reason), store.rows, id)
  {
    var named, why := Text.Strip(reviewer), Text.Strip(reason);
    if named == "" {
      return Err(NoReviewer);
    }
    if why == "" {
      return Err(NoReason);
    }
    r := store.Transition(id, Rejected, named, Some(why), Some(why), Plain);
  }

  // ----- activation and rollback -----

  /** The stripped actor, or "loop" when nothing is left of it. */
  function ActorOrLoop(actor: string): string {
    if Text.Strip(actor) == "" then "loop" else Text.Strip(actor)
  }

  /** The table commit comes first, the proposal transition after it; when the second raises, the
      first stays. */
  function ActivateOutcome(s: State, id: ProposalId, actor: string): (State, Result<Activation>) {
    var found := Find(s.proposals, id);
    if found.None? then (s, Err(UnknownProposal))
    else if found.value.status != Approved then (s, Err(NotApproved))
    else
      var rows := Push(s.activations, id, ActorOrLoop(actor));
      match TransitionOf(s.proposals, id, Activated, ActorOrLoop(actor), None, None, ViaActivation)
      case Err(e) => (State(s.proposals, rows), Err(e))
      case Ok(proposals) => (State(proposals, rows), Ok(rows[|rows| - 1]))
  }

  function RollbackOutcome(s: State, actor: string, reason: Option<string>): (State, Result<Activation>) {
    var current := Current(s.activations);
    if current.None? then (s, Err(NoActiveVersion))
    else
      var rows := Pop(s.activations, current.value);
      match TransitionOf(s.proposals, current.value.proposalId, RolledBack, ActorOrLoop(actor),
                         reason, None, ViaRollback)
      case Err(e) => (State(s.proposals, rows), Err(e))
      case Ok(proposals) => (State(proposals, rows), Ok(Restored(rows, current.value.previous, actor)))
  }

  /** The record `rollback` returns: the version below, or one that stands for nothing. */
  function Restored(rows: seq<Activation>, previous: Option<nat>, actor: string): Activation {
    var restored := if previous.Some? then AtVersion(rows, previous.value) else None;
    if restored.Some? then restored.value else Activation(0, ProposalId(""), None, ActorOrLoop(actor), false, true)
  }

  class ActivationStore {
    const proposals: ProposalStore
    var rows: seq<Activation>

    constructor (proposals: ProposalStore)
      ensures this.proposals == proposals && rows == [] && StackOk(rows)
    {
      this.proposals := proposals;
      rows := [];
    }

    method Activate(id: ProposalId, actor: string) returns (r: Result<Activation>)
      modifies this, proposals
      ensures (State(proposals.rows, rows), r) == ActivateOutcome(old(State(proposals.rows, rows)), id, actor)
    {
      var found := Find(proposals.rows, id);
      if found.None? {
        return Err(UnknownProposal);
      }
      if found.value.status != Approved {
        return Err(NotApproved);
      }
      var who := ActorOrLoop(actor);
      var version := InsertActive(id, who);
      var moved := proposals.Transition(id, Activated, who, None, None, ViaActivation);
      if moved.Err? {
        return Err(moved.error);
      }
      PushedIsFound(old(rows), id, who);
      var record := AtVersion(rows, version);
      return Ok(record.value);
    }

    /** The transaction of `activate`: the active row steps back, the new one takes its place. */
    method InsertActive(id: ProposalId, who: string) returns (version: nat)
      modifies this`rows
      ensures rows == Push(old(rows), id, who) && version == Top(old(rows)) + 1
    {
      var current := Current(rows);
      var previous := if current.Some? then Some(current.value.version) else None;
      version := Top(rows) + 1;
      if current.Some? {
        rows := SetActive(rows, current.value.version, false);
      }
      rows := rows + [Activation(version, id, previous, who, true, false)];
    }

    method Rollback(actor: string, reason: Option<string>) returns (r: Result<Activation>)
      modifies this, proposals
      ensures (State(proposals.rows, rows), r) == RollbackOutcome(old(State(proposals.rows, rows)), actor, reason)
    {
      var who := ActorOrLoop(actor);
      var current := Current(rows);
      if current.None? {
        return Err(NoActiveVersion);
      }
      var record, restored := current.value, None;
      rows := Retire(rows, record.version);
      if record.previous.Some? {
        rows := SetActive(rows, record.previous.value, true);
        restored := AtVersion(rows, record.previous.value);
      }
      var moved := proposals.Transition(record.proposalId, RolledBack, who, reason, None, ViaRollback);
      if moved.Err? {
        return Err(moved.error);
      }
      if restored.Some? {
        return Ok(restored.value);
      }
      return Ok(Activation(0, ProposalId(""), None, who, false, true));
    }
  }

  lemma {:induction false} NewestAtVersion(rows: seq<Activation>)
    requires rows != [] && forall i :: 0 <= i < |rows| - 1 ==> rows[i].version < rows[|rows| - 1].version
    ensures AtVersion(rows, rows[|rows| - 1].version) == Some(rows[|rows| - 1])
  {
    assert rows[|rows| - 1] in rows;
    var found := AtVersion(rows, rows[|rows| - 1].version);
    var i := IndexOf(rows, found.value);
  }

  /** `get_version` finds the row just inserted: no other has its version. */
  lemma {:induction false} PushedIsFound(rows: seq<Activation>, id: ProposalId, actor: string)
    ensures
      var pushed := Push(rows, id, actor);
      AtVersion(pushed, Top(rows) + 1) == Some(pushed[|pushed| - 1])
  {
    var pushed, top := Push(rows, id, actor), Top(rows);
    forall i | 0 <= i < |rows| ensures pushed[i].version <= top {
      assert rows[i] in rows;
    }
    NewestAtVersion(pushed);
  }
}
