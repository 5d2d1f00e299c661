/** What each step of the governed state machine does, column by column, and when it is refused. */
module ApprovalGate {
  import opened Seqs
  import opened Proposals
  import opened Activations
  import opened Governance
  import opened GovernanceRuns
  import Text

  // ----- transitions of one row -----

  /** The row found by its id is the row itself, and writing it changes no other. */
  lemma UpdateAt(rows: seq<Proposal>, i: nat, q: Proposal)
    requires UniqueProposals(rows) && i < |rows| && q.id == rows[i].id && q.kind == rows[i].kind
    ensures Find(rows, q.id) == Some(rows[i]) && Update(rows, q) == rows[i := q]
  {
    UniqueFind(rows, i);
  }

  /** The steps a proposal can take: to review, to a decision, into activation, and out of it. */
  predicate Edge(frm: Status, to: Status) {
    || (frm == Draft && to == PendingReview)
    || (frm == PendingReview && (to == Approved || to == Rejected))
    || (frm == Approved && (to == Activated || to == RolledBack))
    || (frm == Activated && to == RolledBack)
  }

  /** The row as a transition leaves it: who submitted it, who decided on it and why. */
  lemma MovedIs(p: Proposal, to: Status, actor: string, note: Option<string>, reason: Option<string>)
    ensures var decided := to == Approved || to == Rejected;
            Moved(p, to, actor, note, reason) == p.(
              status := to,
              version := p.version + 1,
              submittedBy := if to == PendingReview then actor else p.submittedBy,
              reviewedBy := if decided then Some(actor) else p.reviewedBy,
              reviewNote := if decided then note else p.reviewNote,
              rejectionReason :=
                if to != Rejected then p.rejectionReason
                else if reason != None && reason != Some("") then reason
                else if note != None && note != Some("") then note
                else Some("rejected"))
  {
  }

  /** A transition by `transition` itself: the first guard that fails is reported and nothing changes. */
  lemma TransitionAt(rows: seq<Proposal>, i: nat, to: Status, actor: string, note: Option<string>,
                     reason: Option<string>, via: Via)
    requires UniqueProposals(rows) && i < |rows|
    ensures TransitionOf(rows, rows[i].id, to, actor, note, reason, via)
         == if to == Activated && via != ViaActivation then Err(ActivationOnly)
            else if to == RolledBack && via != ViaRollback then Err(RollbackOnly)
            else if !Edge(rows[i].status, to) then Err(IllegalTransition(rows[i].status, to))
            else Ok(rows[i := Moved(rows[i], to, actor, note, reason)])
  {
    UpdateAt(rows, i, Moved(rows[i], to, actor, note, reason));
  }

  // ----- the approval gate -----

  lemma SubmitAt(rows: seq<Proposal>, i: nat, actor: string)
    requires UniqueProposals(rows) && i < |rows|
    ensures SubmitOutcome(rows, rows[i].id, actor)
         == if rows[i].status == Draft
            then Ok(rows[i := rows[i].(status := PendingReview, version := rows[i].version + 1, submittedBy := actor)])
            else Err(IllegalTransition(rows[i].status, PendingReview))
  {
    TransitionAt(rows, i, PendingReview, actor, None, None, Plain);
  }

  /** Only a proposal under review is approved, and only by somebody. */
  lemma ApproveAt(rows: seq<Proposal>, i: nat, reviewer: string, note: Option<string>)
    requires UniqueProposals(rows) && i < |rows|
    ensures ApproveOutcome(rows, rows[i].id, reviewer, note)
         == if Text.Strip(reviewer) == "" then Err(NoReviewer)
            else if rows[i].status == PendingReview
            then Ok(rows[i := rows[i].(status := Approved, version := rows[i].version + 1,
                                       reviewedBy := Some(Text.Strip(reviewer)), reviewNote := note)])
            else Err(IllegalTransition(rows[i].status, Approved))
  {
    TransitionAt(rows, i, Approved, Text.Strip(reviewer), note, None, Plain);
  }

  /** Only a proposal under review is rejected, by somebody and for a reason. */
  lemma RejectAt(rows: seq<Proposal>, i: nat, reviewer: string, reason: string)
    requires UniqueProposals(rows) && i < |rows|
    ensures RejectOutcome(rows, rows[i].id, reviewer, reason)
         == if Text.Strip(reviewer) == "" then Err(NoReviewer)
            else if Text.Strip(reason) == "" then Err(NoReason)
            else if rows[i].status == PendingReview
            then Ok(rows[i := rows[i].(status := Rejected, version := rows[i].version + 1,
                                       reviewedBy := Some(Text.Strip(reviewer)),
                                       reviewNote := Some(Text.Strip(reason)),
                                       rejectionReason := Some(Text.Strip(reason)))])
            else Err(IllegalTransition(rows[i].status, Rejected))
  {
    TransitionAt(rows, i, Rejected, Text.Strip(reviewer), Some(Text.Strip(reason)), Some(Text.Strip(reason)), Plain);
  }

  lemma UnknownIsRefused(rows: seq<Proposal>, id: ProposalId, person: string, text: string)
    requires id !in IdSet(rows) && Text.Strip(person) != "" && Text.Strip(text) != ""
    ensures SubmitOutcome(rows, id, person) == Err(UnknownProposal)
    ensures ApproveOutcome(rows, id, person, None) == Err(UnknownProposal)
    ensures RejectOutcome(rows, id, person, text) == Err(UnknownProposal)
  {
  }

  // ----- activation and rollback -----

  function Who(actor: string): string {
    if Text.Strip(actor) != "" then Text.Strip(actor) else "loop"
  }

  /** The rows with the flag of the active one cleared, and the new row, which records the version that was active. */
  ghost predicate Pushed(before: seq<Activation>, after: seq<Activation>, id: ProposalId, who: string) {
    var n := |before|;
    && |after| == n + 1
    && (forall k :: 0 <= k < n ==> after[k] == before[k].(active := false))
    && after[n] == Activation(n + 1, id, after[n].previous, who, true, false)
    && (after[n].previous == None <==> forall k :: 0 <= k < n ==> !before[k].active)
    && (after[n].previous.Some? ==> 1 <= after[n].previous.value <= n && before[after[n].previous.value - 1].active)
  }

  /**
   * Activation in a governed state: refused for a proposal that is not approved, and then nothing changes;
   * otherwise the proposal is activated, the new row is returned, and it is the only active one.
   */
  lemma {:induction false} ActivateAt(s: State, i: nat, actor: string)
    requires Governed(s) && i < |s.proposals|
    ensures var p := s.proposals[i];
            var (after, r) := ActivateOutcome(s, p.id, actor);
            if p.status != Approved then after == s && r == Err(NotApproved)
            else
              && after.proposals == s.proposals[i := p.(status := Activated, version := p.version + 1)]
              && Pushed(s.activations, after.activations, p.id, Who(actor))
              && r == Ok(after.activations[|s.activations|])
  {
    var p := s.proposals[i];
    UniqueFind(s.proposals, i);
    if p.status == Approved {
      ActivateIs(s, p.id, actor, p);
      UpdateAt(s.proposals, i, Moved(p, Activated, ActorOrLoop(actor), None, None));
      PushedAt(s.activations, p.id, ActorOrLoop(actor));
    }
  }

  lemma {:induction false} PushedAt(rows: seq<Activation>, id: ProposalId, who: string)
    requires StackOk(rows)
    ensures Pushed(rows, Push(rows, id, who), id, who)
  {
    PushRows(rows, Live(rows), id, who);
    OneActive(rows);
  }

  /** The active row is the top of the live stack. */
  lemma OneActive(rows: seq<Activation>)
    requires StackOk(rows)
    ensures var live := Live(rows);
            && (live == [] <==> forall k :: 0 <= k < |rows| ==> !rows[k].active)
            && (live != [] ==> 1 <= live[|live| - 1] <= |rows| && rows[live[|live| - 1] - 1].active)
  {
  }

  lemma ActivateUnknown(s: State, id: ProposalId, actor: string)
    requires id !in IdSet(s.proposals)
    ensures ActivateOutcome(s, id, actor) == (s, Err(UnknownProposal))
  {
  }

  /** The row of the active version retired, and the one it records below it active again. */
  ghost predicate Popped(before: seq<Activation>, after: seq<Activation>, c: nat)
    requires c < |before|
  {
    && |after| == |before|
    && forall k :: 0 <= k < |before| ==>
         after[k] == if k == c then before[c].(active := false, rolledBack := true)
                     else if before[c].previous == Some(k + 1) then before[k].(active := true)
                     else before[k]
  }

  /**
   * Rollback in a governed state: the owner of the active row is rolled back, and the restored row is returned,
   * or one that stands for nothing when there was no version below.
   */
  lemma {:induction false} RollbackAt(s: State, c: nat, i: nat, actor: string, note: Option<string>)
    requires Governed(s) && c < |s.activations| && s.activations[c].active
    requires i < |s.proposals| && s.proposals[i].id == s.activations[c].proposalId
    ensures var p, row := s.proposals[i], s.activations[c];
            var (after, r) := RollbackOutcome(s, actor, note);
            && after.proposals == s.proposals[i := p.(status := RolledBack, version := p.version + 1)]
            && Popped(s.activations, after.activations, c)
            && r.Ok? && Returned(s.activations, row.previous, actor, r.value)
  {
    PreviousIsBelow(s.activations, c);
    OwnerOfActive(s, i);
    RollbackIsAt(s, c, i, actor, note);
  }

  lemma {:induction false} OwnerOfActive(s: State, i: nat)
    requires Governed(s) && Current(s.activations).Some?
    requires i < |s.proposals| && s.proposals[i].id == Current(s.activations).value.proposalId
    ensures s.proposals[i].status == Activated
  {
    var top, owner := TopOwner(s);
    UniqueFind(s.proposals, i);
  }

  lemma {:induction false} RollbackIsAt(s: State, c: nat, i: nat, actor: string, note: Option<string>)
    requires UniqueProposals(s.proposals) && Numbered(s.activations)
    requires c < |s.activations| && Current(s.activations) == Some(s.activations[c])
    requires s.activations[c].previous.Some? ==> 1 <= s.activations[c].previous.value <= c
    requires i < |s.proposals| && s.proposals[i].id == s.activations[c].proposalId && s.proposals[i].status == Activated
    ensures var p := s.proposals[i];
            var (after, r) := RollbackOutcome(s, actor, note);
            && after.proposals == s.proposals[i := p.(status := RolledBack, version := p.version + 1)]
            && Popped(s.activations, after.activations, c)
            && r.Ok? && Returned(s.activations, s.activations[c].previous, actor, r.value)
  {
    var p := s.proposals[i];
    UpdateAt(s.proposals, i, Moved(p, RolledBack, ActorOrLoop(actor), note, None));
    RollbackIs(s, actor, note, p);
    PoppedAt(s.activations, c, actor);
  }

  lemma {:induction false} PreviousIsBelow(rows: seq<Activation>, c: nat)
    requires StackOk(rows) && c < |rows| && rows[c].active
    ensures Current(rows) == Some(rows[c])
    ensures rows[c].previous.Some? ==> 1 <= rows[c].previous.value <= c
  {
    var live := Live(rows);
    CurrentIsTop(rows, live);
    assert IsTop(live, c + 1);
    assert rows[live[|live| - 1] - 1].previous == Below(live, |live| - 1);
  }

  /** What `rollback` returns for the row below `previous`, or when there is none. */
  ghost predicate Returned(rows: seq<Activation>, previous: Option<nat>, actor: string, r: Activation) {
    && (previous == None ==> r == Activation(0, ProposalId(""), None, Who(actor), false, true))
    && (previous.Some? ==> 1 <= previous.value <= |rows| && r == rows[previous.value - 1].(active := true))
  }

  lemma {:induction false} PoppedAt(rows: seq<Activation>, c: nat, actor: string)
    requires Numbered(rows) && c < |rows| && (rows[c].previous.Some? ==> 1 <= rows[c].previous.value <= c)
    ensures Popped(rows, Pop(rows, rows[c]), c)
    ensures Returned(rows, rows[c].previous, actor, Restored(Pop(rows, rows[c]), rows[c].previous, actor))
  {
    if rows[c].previous.Some? {
      var popped, v := Pop(rows, rows[c]), rows[c].previous.value;
      assert popped[v - 1] in popped;
      var found := AtVersion(popped, v).value;
      assert popped[IndexOf(popped, found)].version == v;
    }
  }

  lemma RollbackOfNothing(s: State, actor: string, note: Option<string>)
    requires forall k :: 0 <= k < |s.activations| ==> !s.activations[k].active
    ensures RollbackOutcome(s, actor, note) == (s, Err(NoActiveVersion))
  {
  }
}
