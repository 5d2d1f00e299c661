/**
 * `ComputerRuntime.act` and the session lifecycle (app/computer/runtime.py, session.py, policy.py,
 * recovery.py). The backend, the planner and the verifier are inputs.
 */
module ComputerRuntime {
  import opened Seqs

  datatype Id = Id(text: string)

  datatype Status = READY | ACTIVE | PAUSED | BLOCKED | FAILED | CLOSED

  datatype Risk = LOW | MEDIUM | HIGH

  datatype Action =
    | MoveMouse | Click | DoubleClick | RightClick | MouseDown | MouseUp | Drag | Scroll | TypeText
    | PressKey | Hotkey | Wait | Screenshot | FocusWindow | ActivateApplication | GetActiveWindow

  /** A request as `classify` leaves it; `selfApproved` is the "approved" entry of its parameters. */
  datatype Request = Request(id: Id, action: Action, risk: Risk, selfApproved: bool, dryRun: bool)

  datatype Plan = Planned | BadTarget | PlanRaises

  datatype FailureClass = PermissionRequired | TimedOutClass | OtherClass

  /** How one dispatch to the backend ends: a result, good or bad, or an exception. */
  datatype Reply = Fine | NotOk(klass: FailureClass) | PermissionError | TimeoutError | OtherException

  datatype Verdict = VERIFIED | UNVERIFIED | VERIFY_FAILED

  /** What one `act` meets: the geometry, the plan, and by attempt the reply and the verdict on it. */
  datatype World = World(geometryFails: bool, plan: Plan, replies: nat -> Reply, verdicts: nat -> Verdict)

  datatype ErrorClass = VALIDATION | APPROVAL_REQUIRED | PERMISSION_REQUIRED | TIMEOUT | BACKEND_FAILURE

  datatype Result = Done(verification: Verdict, attempts: nat) | DryRun | Error(errorClass: ErrorClass) | Raised

  /** The session, and every dispatch the backend has been given. */
  datatype State = State(status: Status, lastActionId: Option<Id>, history: seq<Id>, dispatched: seq<Id>)

  predicate Retryable(a: Action) {
    a in {Click, DoubleClick, TypeText, Drag, PressKey, Hotkey}
  }

  /** What `plan_recovery` allows when an action had no visible effect. */
  predicate RetryAllowed(attemptsSoFar: nat) {
    attemptsSoFar < 1
  }

  // ----- what one act does -----

  predicate Approved(r: Request, approved: bool) {
    r.risk == HIGH ==> approved || r.selfApproved
  }

  /** The act gets as far as the backend. The status matters only when it is CLOSED. */
  predicate Admitted(status: Status, dryRun: bool, r: Request, approved: bool, w: World) {
    status != CLOSED && Approved(r, approved) && !w.geometryFails && w.plan == Planned && !r.dryRun && !dryRun
  }

  /** A second attempt is made: the first had no visible effect and may be repeated. */
  predicate Repeats(r: Request, w: World) {
    w.replies(0).Fine? && w.verdicts(0) == UNVERIFIED && Retryable(r.action) && r.risk != HIGH
  }

  /** One dispatch, and a second when the first had no visible effect and is safe to repeat. */
  function Dispatches(r: Request, w: World): nat {
    if Repeats(r, w) then 2 else 1
  }

  function LastReply(r: Request, w: World): Reply {
    w.replies(Dispatches(r, w) - 1)
  }

  /** A missing permission: reported by the backend, or raised by the first dispatch. */
  predicate MissesPermission(r: Request, w: World) {
    LastReply(r, w) == NotOk(PermissionRequired) || (Dispatches(r, w) == 1 && LastReply(r, w) == PermissionError)
  }

  predicate RunsOutOfTime(r: Request, w: World) {
    LastReply(r, w) == NotOk(TimedOutClass) || (Dispatches(r, w) == 1 && LastReply(r, w) == TimeoutError)
  }

  function Touched(s: State, id: Id): State {
    s.(lastActionId := Some(id), history := s.history + [id], status := if s.status == READY then ACTIVE else s.status)
  }

  function Dispatched(s: State, id: Id, n: nat): State {
    s.(dispatched := s.dispatched + seq(n, _ => id))
  }

  function AfterAct(s: State, dryRun: bool, request: Option<Request>, approved: bool, w: World): State {
    if request.None? || !Admitted(s.status, dryRun, request.value, approved, w) then s else
      var r := request.value;
      var s' := Dispatched(s, r.id, Dispatches(r, w));
      if LastReply(r, w).Fine? then Touched(s', r.id)
      else if MissesPermission(r, w) then s'.(status := BLOCKED)
      else s'
  }

  function ActResult(status: Status, dryRun: bool, request: Option<Request>, approved: bool, w: World): Result {
    if request.None? then Raised
    else if status == CLOSED then Error(VALIDATION)
    else if !Approved(request.value, approved) then Error(APPROVAL_REQUIRED)
    else if w.geometryFails then Error(BACKEND_FAILURE)
    else if w.plan == BadTarget then Error(VALIDATION)
    else if w.plan == PlanRaises then Raised
    else if request.value.dryRun || dryRun then DryRun
    else if LastReply(request.value, w).Fine? then
      Done(w.verdicts(Dispatches(request.value, w) - 1), Dispatches(request.value, w))
    else if MissesPermission(request.value, w) then Error(PERMISSION_REQUIRED)
    else if RunsOutOfTime(request.value, w) then Error(TIMEOUT)
    else Error(BACKEND_FAILURE)
  }

  class Runtime {
    var status: Status
    var lastActionId: Option<Id>
    var history: seq<Id>
    var dispatched: seq<Id>
    const dryRun: bool

    constructor (dryRun: bool)
      ensures Contents() == State(READY, None, [], []) && this.dryRun == dryRun
    {
      status, lastActionId, history, dispatched := READY, None, [], [];
      this.dryRun := dryRun;
    }

    ghost function Contents(): State
      reads this
    {
      State(status, lastActionId, history, dispatched)
    }

    method Dispatch(id: Id, w: World, attempt: nat) returns (reply: Reply)
      modifies this`dispatched
      ensures reply == w.replies(attempt) && dispatched == old(dispatched) + [id]
    {
      dispatched := dispatched + [id];
      reply := w.replies(attempt);
    }

    method Touch(id: Id)
      modifies this
      ensures Contents() == Touched(old(Contents()), id)
    {
      lastActionId := Some(id);
      history := history + [id];
      if status == READY {
        status := ACTIVE;
      }
    }

    method MapBackendFailure(klass: FailureClass) returns (result: Result)
      modifies this`status
      ensures status == if klass == PermissionRequired then BLOCKED else old(status)
      ensures result == Error(if klass == PermissionRequired then PERMISSION_REQUIRED
                              else if klass == TimedOutClass then TIMEOUT else BACKEND_FAILURE)
    {
      if klass == PermissionRequired {
        status := BLOCKED;
        return Error(PERMISSION_REQUIRED);
      }
      result := Error(if klass == TimedOutClass then TIMEOUT else BACKEND_FAILURE);
    }

    method Act(request: Option<Request>, approved: bool, w: World) returns (result: Result)
      modifies this
      ensures Contents() == AfterAct(old(Contents()), dryRun, request, approved, w)
      ensures result == ActResult(old(status), dryRun, request, approved, w)
    {
      if request.None? {
        return Raised;
      }
      var r := request.value;
      if status == CLOSED {
        return Error(VALIDATION);
      }
      if r.risk == HIGH && !approved && !r.selfApproved {
        return Error(APPROVAL_REQUIRED);
      }
      if w.geometryFails {
        return Error(BACKEND_FAILURE);
      }
      if w.plan != Planned {
        return if w.plan == BadTarget then Error(VALIDATION) else Raised;
      }
      if r.dryRun || dryRun {
        return DryRun;
      }
      ghost var first := dispatched + [r.id];
      assert dispatched + seq(1, _ => r.id) == first;
      assert dispatched + seq(2, _ => r.id) == first + [r.id];
      var reply := Dispatch(r.id, w, 0);
      match reply {
        case PermissionError =>
          status := BLOCKED;
          return Error(PERMISSION_REQUIRED);
        case TimeoutError =>
          return Error(TIMEOUT);
        case OtherException =>
          return Error(BACKEND_FAILURE);
        case NotOk(klass) =>
          result := MapBackendFailure(klass);
          return;
        case Fine =>
      }
      var verdict := w.verdicts(0);
      var attempts := 0;
      while verdict == UNVERIFIED && attempts < 1 && Retryable(r.action) && r.risk != HIGH
        invariant attempts <= 1 && verdict == w.verdicts(attempts) && w.replies(attempts).Fine?
        invariant attempts == 1 ==> Dispatches(r, w) == 2
        invariant dispatched == first + if attempts == 1 then [r.id] else []
        invariant (status, lastActionId, history) == old((status, lastActionId, history))
        decreases 1 - attempts
      {
        if !RetryAllowed(attempts) {
          break;
        }
        attempts := attempts + 1;
        reply := Dispatch(r.id, w, attempts);
        match reply {
          case NotOk(klass) =>
            result := MapBackendFailure(klass);
            return;
          case Fine =>
          case _ =>
            return Error(BACKEND_FAILURE);
        }
        verdict := w.verdicts(attempts);
      }
      Touch(r.id);
      result := Done(verdict, attempts + 1);
    }

    method Pause()
      modifies this`status
      ensures status == if old(status) == ACTIVE then PAUSED else old(status)
    {
      if status == ACTIVE {
        status := PAUSED;
      }
    }

    method Resume()
      modifies this`status
      ensures status == if old(status) == PAUSED then ACTIVE else old(status)
    {
      if status == PAUSED {
        status := ACTIVE;
      }
    }

    method Close()
      modifies this`status
      ensures status == CLOSED
    {
      status := CLOSED;
    }
  }

  // ----- runs -----

  datatype Op = DoAct(request: Option<Request>, approved: bool, world: World) | DoPause | DoResume | DoClose

  function Apply(s: State, dryRun: bool, op: Op): State {
    match op
    case DoAct(request, approved, w) => AfterAct(s, dryRun, request, approved, w)
    case DoPause => s.(status := if s.status == ACTIVE then PAUSED else s.status)
    case DoResume => s.(status := if s.status == PAUSED then ACTIVE else s.status)
    case DoClose => s.(status := CLOSED)
  }

  function Run(s: State, dryRun: bool, ops: seq<Op>): State
    decreases |ops|
  {
    if ops == [] then s else Run(Apply(s, dryRun, ops[0]), dryRun, ops[1..])
  }

  const FRESH := State(READY, None, [], [])

  /** What holds of a session at any time. */
  ghost predicate Consistent(s: State) {
    && s.status != FAILED
    && (s.status == READY ==> s.history == [])
    && (s.status == ACTIVE || s.status == PAUSED ==> s.history != [])
    && s.lastActionId == (if s.history == [] then None else Some(s.history[|s.history| - 1]))
    && multiset(s.history) <= multiset(s.dispatched)
  }

  lemma DispatchedKeeps(s: State, id: Id, n: nat)
    requires Consistent(s)
    ensures Consistent(Dispatched(s, id, n))
    ensures n > 0 ==> multiset(s.history + [id]) <= multiset(Dispatched(s, id, n).dispatched)
  {
    if n > 0 {
      var copies := seq(n, _ => id);
      assert id in copies by {
        assert copies[0] == id;
      }
      assert multiset(copies)[id] > 0;
    }
  }

  lemma TouchedKeeps(s: State, id: Id)
    requires Consistent(s) && multiset(s.history + [id]) <= multiset(s.dispatched)
    ensures Consistent(Touched(s, id))
  {
  }

  lemma ActKeeps(s: State, dryRun: bool, r: Request, approved: bool, w: World)
    requires Consistent(s) && Admitted(s.status, dryRun, r, approved, w)
    ensures Consistent(AfterAct(s, dryRun, Some(r), approved, w))
  {
    var n := Dispatches(r, w);
    var s' := Dispatched(s, r.id, n);
    DispatchedKeeps(s, r.id, n);
    if LastReply(r, w).Fine? {
      TouchedKeeps(s', r.id);
      assert AfterAct(s, dryRun, Some(r), approved, w) == Touched(s', r.id);
    } else if MissesPermission(r, w) {
      assert AfterAct(s, dryRun, Some(r), approved, w) == s'.(status := BLOCKED);
    } else {
      assert AfterAct(s, dryRun, Some(r), approved, w) == s';
    }
  }

  lemma ApplyKeeps(s: State, dryRun: bool, op: Op)
    requires Consistent(s)
    ensures Consistent(Apply(s, dryRun, op))
  {
    match op
    case DoAct(Some(r), approved, w) =>
      if Admitted(s.status, dryRun, r, approved, w) {
        ActKeeps(s, dryRun, r, approved, w);
      } else {
        assert Apply(s, dryRun, op) == s;
      }
    case _ =>
  }

  lemma {:induction false} RunKeeps(s: State, dryRun: bool, ops: seq<Op>)
    requires Consistent(s)
    ensures Consistent(Run(s, dryRun, ops))
    decreases |ops|
  {
    if ops != [] {
      ApplyKeeps(s, dryRun, ops[0]);
      RunKeeps(Apply(s, dryRun, ops[0]), dryRun, ops[1..]);
    }
  }

  /** Every session that was started fresh is consistent: FAILED is never reached, for one. */
  lemma {:induction false} ReachableIsConsistent(dryRun: bool, ops: seq<Op>)
    ensures Consistent(Run(FRESH, dryRun, ops))
  {
    RunKeeps(FRESH, dryRun, ops);
  }

  /** CLOSED is final: nothing changes any more, and nothing is dispatched. */
  lemma {:induction false} ClosedIsFinal(s: State, dryRun: bool, ops: seq<Op>)
    requires s.status == CLOSED
    ensures Run(s, dryRun, ops) == s
    decreases |ops|
  {
    if ops != [] {
      assert Apply(s, dryRun, ops[0]) == s;
      ClosedIsFinal(s, dryRun, ops[1..]);
    }
  }

  ghost predicate Closes(ops: seq<Op>) {
    exists i :: 0 <= i < |ops| && ops[i].DoClose?
  }

  /** A blocked session stays blocked until it is closed. */
  lemma {:induction false} BlockedUntilClosed(s: State, dryRun: bool, ops: seq<Op>)
    requires s.status == BLOCKED
    ensures Run(s, dryRun, ops).status == if Closes(ops) then CLOSED else BLOCKED
    decreases |ops|
  {
    if ops != [] {
      var next := Apply(s, dryRun, ops[0]);
      if ops[0].DoClose? {
        ClosedIsFinal(next, dryRun, ops[1..]);
        assert Closes(ops);
      } else {
        assert next.status == BLOCKED;
        BlockedUntilClosed(next, dryRun, ops[1..]);
        assert forall i :: 1 <= i < |ops| ==> ops[i] == ops[1..][i - 1];
        assert forall i :: 0 <= i < |ops| - 1 ==> ops[1..][i] == ops[i + 1];
        assert Closes(ops) <==> Closes(ops[1..]);
      }
    }
  }

  /** How often an operation may reach the backend. */
  function Allowance(dryRun: bool, op: Op): nat {
    match op
    case DoAct(Some(r), approved, _) =>
      if r.dryRun || dryRun || !Approved(r, approved) then 0 else if r.risk == HIGH then 1 else 2
    case _ => 0
  }

  function TotalAllowance(dryRun: bool, ops: seq<Op>): nat {
    if ops == [] then 0 else Allowance(dryRun, ops[0]) + TotalAllowance(dryRun, ops[1..])
  }

  /** At most two dispatches for an act, one if it is HIGH risk, none unapproved or in a dry run. */
  lemma {:induction false} DispatchesAreBounded(s: State, dryRun: bool, ops: seq<Op>)
    ensures s.dispatched <= Run(s, dryRun, ops).dispatched && s.history <= Run(s, dryRun, ops).history
    ensures |Run(s, dryRun, ops).dispatched| <= |s.dispatched| + TotalAllowance(dryRun, ops)
    decreases |ops|
  {
    if ops != [] {
      DispatchesAreBounded(Apply(s, dryRun, ops[0]), dryRun, ops[1..]);
    }
  }

  /** Two sessions that differ in nothing but their status, neither or both of them closed. */
  predicate SameButStatus(s: State, t: State) {
    && s.lastActionId == t.lastActionId && s.history == t.history && s.dispatched == t.dispatched
    && (s.status == CLOSED <==> t.status == CLOSED)
  }

  /** Pausing or blocking a session does not hold an act back: over any run, only CLOSED makes a difference. */
  lemma {:induction false} OnlyClosedHoldsBack(s: State, t: State, dryRun: bool, ops: seq<Op>)
    requires SameButStatus(s, t)
    ensures SameButStatus(Run(s, dryRun, ops), Run(t, dryRun, ops))
    decreases |ops|
  {
    if ops != [] {
      OnlyClosedHoldsBack(Apply(s, dryRun, ops[0]), Apply(t, dryRun, ops[0]), dryRun, ops[1..]);
    }
  }

  // ----- what the result of an act says -----

  /** The gates, in the order in which they are passed: each answers in its own way and leaves the session alone. */
  lemma GatesAnswer(s: State, dryRun: bool, r: Request, approved: bool, w: World)
    ensures var result := ActResult(s.status, dryRun, Some(r), approved, w);
            var refused := AfterAct(s, dryRun, Some(r), approved, w) == s;
            if s.status == CLOSED then refused && result == Error(VALIDATION)
            else if r.risk == HIGH && !approved && !r.selfApproved then refused && result == Error(APPROVAL_REQUIRED)
            else if w.geometryFails then refused && result == Error(BACKEND_FAILURE)
            else if w.plan == BadTarget then refused && result == Error(VALIDATION)
            else if w.plan == PlanRaises then refused && result == Raised
            else if r.dryRun || dryRun then refused && result == DryRun
            else !refused && !result.Raised? && !result.DryRun?
  {
    DispatchesIffAdmitted(s, dryRun, r, approved, w);
  }

  /** The error a bad reply ends an act with, when it is raised or reported. */
  predicate Ends(reply: Reply, errorClass: ErrorClass, last: bool) {
    match reply
    case Fine => false
    case NotOk(PermissionRequired) => errorClass == PERMISSION_REQUIRED
    case NotOk(TimedOutClass) => errorClass == TIMEOUT
    case PermissionError => errorClass == if last then BACKEND_FAILURE else PERMISSION_REQUIRED
    case TimeoutError => errorClass == if last then BACKEND_FAILURE else TIMEOUT
    case _ => errorClass == BACKEND_FAILURE
  }

  /**
   * Past the gates the last of one or two dispatches decides. A second one is made exactly when the first went
   * well without a visible effect, the action may be repeated and the risk is not HIGH. The result is Done exactly
   * when the history grew; its attempts are the dispatches made, and its verification is the verdict on the last.
   * A permission error or a timeout is told from other exceptions only when the first dispatch raises it.
   */
  lemma {:induction false} LastDispatchDecides(s: State, dryRun: bool, r: Request, approved: bool, w: World)
    requires s.status != CLOSED && (r.risk == HIGH ==> approved || r.selfApproved)
    requires !w.geometryFails && w.plan == Planned && !r.dryRun && !dryRun
    ensures var after := AfterAct(s, dryRun, Some(r), approved, w);
            var result := ActResult(s.status, dryRun, Some(r), approved, w);
            var n := |after.dispatched| - |s.dispatched|;
            && (n == 1 || n == 2) && after.dispatched == s.dispatched + seq(n, _ => r.id)
            && (n == 2 <==> w.replies(0) == Fine && w.verdicts(0) == UNVERIFIED && r.risk != HIGH
                            && r.action in {Click, DoubleClick, TypeText, Drag, PressKey, Hotkey})
            && (w.replies(n - 1) == Fine <==> after.history != s.history)
            && (if w.replies(n - 1) == Fine
                then after.history == s.history + [r.id] && after.lastActionId == Some(r.id)
                     && result == Done(w.verdicts(n - 1), n)
                else after.lastActionId == s.lastActionId
                     && result.Error? && Ends(w.replies(n - 1), result.errorClass, n == 2))
            && after.status == (if result == Error(PERMISSION_REQUIRED) then BLOCKED
                                else if s.status == READY && result.Done? then ACTIVE else s.status)
  {
    assert |s.history + [r.id]| != |s.history|;
  }

  // ----- when an act reaches the backend, is recorded, and blocks the session -----

  /** An act reaches the backend exactly when it is admitted, which of all statuses only CLOSED prevents. */
  lemma DispatchesIffAdmitted(s: State, dryRun: bool, r: Request, approved: bool, w: World)
    ensures AfterAct(s, dryRun, Some(r), approved, w).dispatched == s.dispatched
      <==> !Admitted(s.status, dryRun, r, approved, w)
  {
    var after := AfterAct(s, dryRun, Some(r), approved, w);
    if Admitted(s.status, dryRun, r, approved, w) {
      assert |after.dispatched| == |s.dispatched| + Dispatches(r, w);
    }
  }

  predicate LacksPermission(reply: Reply) {
    reply == PermissionError || reply == NotOk(PermissionRequired)
  }

  /** An act is recorded exactly when it is admitted and each of its one or two dispatches goes well. */
  lemma {:induction false} RecordedIff(s: State, dryRun: bool, r: Request, approved: bool, w: World)
    ensures var after := AfterAct(s, dryRun, Some(r), approved, w);
            && (after.history != s.history <==>
                  && Admitted(s.status, dryRun, r, approved, w)
                  && w.replies(0).Fine? && (Repeats(r, w) ==> w.replies(1).Fine?))
            && (after.history != s.history ==> after.history == s.history + [r.id])
  {
    assert |s.history + [r.id]| != |s.history|;
  }

  /**
   * A missing permission blocks the session, whichever dispatch meets it and however it is reported, with
   * one exception: raised by the second dispatch it is a backend failure like any other.
   */
  lemma BlockedIff(s: State, dryRun: bool, r: Request, approved: bool, w: World)
    ensures AfterAct(s, dryRun, Some(r), approved, w).status == BLOCKED <==>
      || s.status == BLOCKED
      || (&& Admitted(s.status, dryRun, r, approved, w)
          && if Repeats(r, w) then w.replies(1) == NotOk(PermissionRequired) else LacksPermission(w.replies(0)))
    ensures Admitted(s.status, dryRun, r, approved, w) && s.status != BLOCKED && LacksPermission(LastReply(r, w)) ==>
      (AfterAct(s, dryRun, Some(r), approved, w).status == BLOCKED <==>
       !(Repeats(r, w) && w.replies(1) == PermissionError))
  {
  }

  /** A click whose first dispatch shows no effect. */
  const CLICK := Request(Id("act_1"), Click, MEDIUM, false, false)

  /** The second dispatch raises a permission error, and the session stays READY. */
  lemma SecondPermissionErrorDoesNotBlock(w: World)
    requires !w.geometryFails && w.plan == Planned
    requires w.replies(0) == Fine && w.verdicts(0) == UNVERIFIED && w.replies(1) == PermissionError
    ensures AfterAct(FRESH, false, Some(CLICK), false, w) == FRESH.(dispatched := [CLICK.id, CLICK.id])
    ensures ActResult(READY, false, Some(CLICK), false, w) == Error(BACKEND_FAILURE)
  {
    assert Dispatches(CLICK, w) == 2;
    assert FRESH.dispatched + seq(2, _ => CLICK.id) == [CLICK.id, CLICK.id];
  }

  /** An act in a paused session, and one in a blocked session, is dispatched, verified and recorded. */
  lemma {:induction false} PausedAndBlockedSessionsAct(w: World, s: State)
    requires !w.geometryFails && w.plan == Planned && w.replies(0) == Fine && w.verdicts(0) == VERIFIED
    requires s.status == PAUSED || s.status == BLOCKED
    ensures var after := AfterAct(s, false, Some(CLICK), false, w);
            && after.dispatched == s.dispatched + [CLICK.id] && after.history == s.history + [CLICK.id]
            && after.status == s.status
    ensures ActResult(s.status, false, Some(CLICK), false, w) == Done(VERIFIED, 1)
  {
    assert s.dispatched + seq(1, _ => CLICK.id) == s.dispatched + [CLICK.id];
  }

  /** A world in which every dispatch goes well, and one in which permissions are withdrawn. */
  const WILLING := World(false, Planned, _ => Fine, _ => VERIFIED)
  const FORBIDDING := World(false, Planned, _ => PermissionError, _ => VERIFIED)

  /** Such sessions are reached: after an act and a pause, or after an act without permission, a click goes through. */
  lemma PausedAndBlockedAreReached()
    ensures Run(FRESH, false, [DoAct(Some(CLICK), false, WILLING), DoPause]).status == PAUSED
    ensures Run(FRESH, false, [DoAct(Some(CLICK), false, FORBIDDING)]).status == BLOCKED
  {
    var first := Apply(FRESH, false, DoAct(Some(CLICK), false, WILLING));
    RunTwo(FRESH, false, DoAct(Some(CLICK), false, WILLING), DoPause);
    RunTwo(FRESH, false, DoAct(Some(CLICK), false, FORBIDDING), DoPause);
    assert first.status == ACTIVE;
  }

  lemma {:induction false} RunTwo(s: State, dryRun: bool, first: Op, second: Op)
    ensures Run(s, dryRun, [first]) == Apply(s, dryRun, first)
    ensures Run(s, dryRun, [first, second]) == Apply(Apply(s, dryRun, first), dryRun, second)
  {
    assert [first][1..] == [] && [second][1..] == [] && [first, second][1..] == [second];
    assert Run(Apply(s, dryRun, first), dryRun, [second]) == Apply(Apply(s, dryRun, first), dryRun, second);
  }

  // ----- pausing and resuming -----

  predicate OnlyPauses(ops: seq<Op>) {
    forall i :: 0 <= i < |ops| ==> ops[i].DoPause? || ops[i].DoResume?
  }

  /** Of any pauses and resumes only the last counts, and only in a session that is active or paused. */
  lemma {:induction false} LastPauseCounts(s: State, dryRun: bool, ops: seq<Op>)
    requires OnlyPauses(ops)
    ensures Run(s, dryRun, ops) == s.(status :=
      if ops == [] || (s.status != ACTIVE && s.status != PAUSED) then s.status
      else if ops[|ops| - 1].DoPause? then PAUSED else ACTIVE)
    decreases |ops|
  {
    if ops != [] {
      LastPauseCounts(Apply(s, dryRun, ops[0]), dryRun, ops[1..]);
    }
  }
}
