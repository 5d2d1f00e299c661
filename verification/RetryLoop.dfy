/** `_chat_with_retry` and the chains it walks: bounded retries, backoff, failover, and the log. */
module RetryLoop {
  import opened Seqs
  import Text

  /** A model or route id; the empty one counts as absent. */
  datatype Route = Route(name: string)

  datatype Fault = Timeout | ConnectFailure | StreamFailure | HttpStatus(code: int) | OtherFault

  /** What one request comes back with. */
  datatype Reply =
    | Success(status: int, content: string)
    | Unparsable(status: int)
    | Failed(fault: Fault)

  datatype Outcome = Answer(content: string) | LLMError(attempts: nat)

  /** One record of the attempt log. An attempt that failed while its body was read holds both a
      status and an error. */
  datatype Entry =
    | Attempt(number: nat, route: Route, status: Option<int>, error: Option<Fault>, retryable: Option<bool>)
    | RouteChange(frm: Route, to: Route, attempt: nat)
    | Backoff(attempt: nat, delay: real)

  function IsRetryable(fault: Fault): bool {
    match fault
    case Timeout => true
    case ConnectFailure => true
    case StreamFailure => true
    case HttpStatus(code) => code >= 500 || code == 429 || code == 408
    case OtherFault => false
  }

  function Pow2(n: nat): nat {
    if n == 0 then 1 else 2 * Pow2(n - 1)
  }

  /** `base * 2**n` */
  function Doubled(base: real, n: nat): (r: real)
    ensures base >= 0.0 ==> r >= base
  {
    if n == 0 then base else 2.0 * Doubled(base, n - 1)
  }

  /** The random part of a delay. */
  type Fraction = x: real | 0.0 <= x <= 1.0

  /** `random.uniform(0, high)` */
  function Uniform(fraction: Fraction, high: real): (d: real)
    requires high >= 0.0
    ensures 0.0 <= d <= high
  {
    assert high - fraction * high == (1.0 - fraction) * high;
    fraction * high
  }

  /** Exponential backoff with full jitter. */
  function BackoffDelay(base: real, attempt: nat, fraction: Fraction): real
    requires attempt >= 1
  {
    if base <= 0.0 then 0.0 else Uniform(fraction, Doubled(base, attempt - 1))
  }

  // ----- the loop, with everything it meets given up front -----

  /** The inputs of one call: routes, configuration, replies and random fractions by attempt. */
  datatype Call = Call(chain: seq<Route>, maxRetries: nat, base: real, replies: nat -> Reply,
                       fractions: nat -> Fraction)

  predicate Fits(c: Call) {
    c.chain != [] && c.base >= 0.0
  }

  /** Each attempt uses the next route, the last one again and again. */
  function RouteAt(c: Call, attempt: nat): Route
    requires Fits(c) && attempt >= 1
  {
    if attempt <= |c.chain| then c.chain[attempt - 1] else c.chain[|c.chain| - 1]
  }

  /** `previous_model` before an attempt: the last route with a name. */
  function Previous(c: Call, attempt: nat): Route
    requires Fits(c) && attempt >= 1
  {
    if attempt == 1 then Route("")
    else if RouteAt(c, attempt - 1).name != "" then RouteAt(c, attempt - 1)
    else Previous(c, attempt - 1)
  }

  function ChangeEntries(c: Call, attempt: nat): seq<Entry>
    requires Fits(c) && attempt >= 1
  {
    var previous, route := Previous(c, attempt), RouteAt(c, attempt);
    if previous.name != "" && route.name != "" && route != previous then [RouteChange(previous, route, attempt)] else []
  }

  /** The records of one request. A success whose body cannot be read is logged, then the same
      record is completed with the error and logged again: both entries are one object. */
  function RequestEntries(c: Call, attempt: nat): seq<Entry>
    requires Fits(c) && attempt >= 1
  {
    var route := RouteAt(c, attempt);
    match c.replies(attempt)
    case Success(status, _) => [Attempt(attempt, route, Some(status), None, None)]
    case Failed(fault) => [Attempt(attempt, route, None, Some(fault), Some(IsRetryable(fault)))]
    case Unparsable(status) =>
      var record := Attempt(attempt, route, Some(status), Some(OtherFault), Some(false));
      [record, record]
  }

  function DelayAt(c: Call, attempt: nat): real
    requires attempt >= 1
  {
    BackoffDelay(c.base, attempt, c.fractions(attempt))
  }

  /** The log after k attempts that were each followed by a backoff. */
  function RetriedLog(c: Call, k: nat): seq<Entry>
    requires Fits(c)
  {
    if k == 0 then [] else
      RetriedLog(c, k - 1) + ChangeEntries(c, k) + RequestEntries(c, k) + [Backoff(k, DelayAt(c, k))]
  }

  function CallLog(c: Call, n: nat): seq<Entry>
    requires Fits(c) && n >= 1
  {
    RetriedLog(c, n - 1) + ChangeEntries(c, n) + RequestEntries(c, n)
  }

  function TotalDelay(c: Call, k: nat): real {
    if k == 0 then 0.0 else TotalDelay(c, k - 1) + DelayAt(c, k)
  }

  /** The attempt failed in a way worth another one. */
  predicate Retryable(c: Call, attempt: nat) {
    c.replies(attempt).Failed? && IsRetryable(c.replies(attempt).fault)
  }

  ghost predicate AllRetryable(c: Call, n: int) {
    forall k :: 1 <= k <= n ==> Retryable(c, k)
  }

  /** n is the attempt the call ends with. */
  ghost predicate EndsAt(c: Call, n: nat) {
    && 1 <= n <= c.maxRetries + 1
    && AllRetryable(c, n - 1)
    && (n == c.maxRetries + 1 || !Retryable(c, n))
  }

  /** The change record, if any, that precedes a request. */
  method LogChange(c: Call, attempt: nat, previous: Route, log0: seq<Entry>) returns (log: seq<Entry>)
    requires Fits(c) && attempt >= 1 && previous == Previous(c, attempt)
    ensures log == log0 + ChangeEntries(c, attempt)
  {
    var route := RouteAt(c, attempt);
    log := log0;
    if previous.name != "" && route.name != "" && route != previous {
      log := log + [RouteChange(previous, route, attempt)];
    }
  }

  /** The records of the request itself, as the body and the handler append them. */
  method LogRequest(c: Call, attempt: nat, log0: seq<Entry>) returns (log: seq<Entry>)
    requires Fits(c) && attempt >= 1
    ensures log == log0 + RequestEntries(c, attempt)
  {
    var route := RouteAt(c, attempt);
    match c.replies(attempt)
    case Success(status, _) =>
      log := log0 + [Attempt(attempt, route, Some(status), None, None)];
    case Unparsable(status) =>
      // logged as a success first; the handler completes the same record and logs it again
      var record := Attempt(attempt, route, Some(status), Some(OtherFault), Some(false));
      log := log0 + [record];
      log := log + [record];
    case Failed(fault) =>
      log := log0 + [Attempt(attempt, route, None, Some(fault), Some(IsRetryable(fault)))];
  }

  lemma Regroup(log: seq<Entry>, retried: seq<Entry>, change: seq<Entry>, request: seq<Entry>, wait: seq<Entry>)
    ensures log + retried + change + request == log + (retried + change + request)
    ensures log + (retried + change + request) + wait == log + (retried + change + request + wait)
  {
  }

  lemma {:induction false} LogGrows(c: Call, log0: seq<Entry>, k: nat)
    requires Fits(c) && k >= 1
    ensures log0 + RetriedLog(c, k - 1) + ChangeEntries(c, k) + RequestEntries(c, k) == log0 + CallLog(c, k)
    ensures log0 + CallLog(c, k) + [Backoff(k, DelayAt(c, k))] == log0 + RetriedLog(c, k)
  {
    Regroup(log0, RetriedLog(c, k - 1), ChangeEntries(c, k), RequestEntries(c, k), [Backoff(k, DelayAt(c, k))]);
  }

  /** All records of one attempt. */
  method LogAttempt(c: Call, attempt: nat, previous: Route, ghost start: seq<Entry>, log0: seq<Entry>)
    returns (log: seq<Entry>)
    requires Fits(c) && attempt >= 1 && previous == Previous(c, attempt)
    requires log0 == start + RetriedLog(c, attempt - 1)
    ensures log == start + CallLog(c, attempt)
    ensures log + [Backoff(attempt, DelayAt(c, attempt))] == start + RetriedLog(c, attempt)
  {
    log := LogChange(c, attempt, previous, log0);
    log := LogRequest(c, attempt, log);
    LogGrows(c, start, attempt);
  }

  method ChatWithRetry(c: Call, log0: seq<Entry>) returns (outcome: Outcome, log: seq<Entry>, attempt: nat, slept: real)
    requires Fits(c)
    ensures EndsAt(c, attempt)
    ensures outcome == if c.replies(attempt).Success? then Answer(c.replies(attempt).content) else LLMError(attempt)
    ensures log == log0 + CallLog(c, attempt)
    ensures slept == TotalDelay(c, attempt - 1)
  {
    attempt, log, slept := 0, log0, 0.0;
    var previous := Route("");
    while true
      invariant attempt <= c.maxRetries
      invariant AllRetryable(c, attempt)
      invariant previous == Previous(c, attempt + 1)
      invariant log == log0 + RetriedLog(c, attempt)
      invariant slept == TotalDelay(c, attempt)
      decreases c.maxRetries - attempt
    {
      attempt := attempt + 1;
      log := LogAttempt(c, attempt, previous, log0, log);
      previous := if RouteAt(c, attempt).name != "" then RouteAt(c, attempt) else previous;
      var reply := c.replies(attempt);
      if reply.Success? {
        return Answer(reply.content), log, attempt, slept;
      }
      if attempt > c.maxRetries || !(reply.Failed? && IsRetryable(reply.fault)) {
        return LLMError(attempt), log, attempt, slept;
      }
      var delay := BackoffDelay(c.base, attempt, c.fractions(attempt));
      log := log + [Backoff(attempt, delay)];
      slept := slept + delay;
    }
  }

  // ----- what the log says -----

  function Select(p: Entry -> bool, log: seq<Entry>): seq<Entry> {
    if log == [] then [] else (if p(log[0]) then [log[0]] else []) + Select(p, log[1..])
  }

  predicate IsAttempt(e: Entry) {
    e.Attempt?
  }

  predicate IsBackoff(e: Entry) {
    e.Backoff?
  }

  predicate IsChange(e: Entry) {
    e.RouteChange?
  }

  function AttemptsIn(log: seq<Entry>): seq<Entry> {
    Select(IsAttempt, log)
  }

  function BackoffsIn(log: seq<Entry>): seq<Entry> {
    Select(IsBackoff, log)
  }

  function ChangesIn(log: seq<Entry>): seq<Entry> {
    Select(IsChange, log)
  }

  lemma {:induction false} SelectConcat(p: Entry -> bool, a: seq<Entry>, b: seq<Entry>)
    ensures Select(p, a + b) == Select(p, a) + Select(p, b)
  {
    if a == [] {
      NilLeft(b);
      NilLeft(Select(p, b));
    } else {
      SelectConcat(p, a[1..], b);
      ConsConcat(a, b);
      Associate(if p(a[0]) then [a[0]] else [], Select(p, a[1..]), Select(p, b));
    }
  }

  lemma KindsConcat(a: seq<Entry>, b: seq<Entry>)
    ensures AttemptsIn(a + b) == AttemptsIn(a) + AttemptsIn(b)
    ensures BackoffsIn(a + b) == BackoffsIn(a) + BackoffsIn(b)
    ensures ChangesIn(a + b) == ChangesIn(a) + ChangesIn(b)
  {
    SelectConcat(IsAttempt, a, b);
    SelectConcat(IsBackoff, a, b);
    SelectConcat(IsChange, a, b);
  }

  lemma KindsOfThree(a: seq<Entry>, b: seq<Entry>, c: seq<Entry>)
    ensures AttemptsIn(a + b + c) == AttemptsIn(a) + AttemptsIn(b) + AttemptsIn(c)
    ensures BackoffsIn(a + b + c) == BackoffsIn(a) + BackoffsIn(b) + BackoffsIn(c)
    ensures ChangesIn(a + b + c) == ChangesIn(a) + ChangesIn(b) + ChangesIn(c)
  {
    KindsConcat(a + b, c);
    KindsConcat(a, b);
  }

  /** A chain as `_ninerouter` builds it: every route named, none twice. */
  ghost predicate CleanChain(c: Call) {
    Fits(c) && Distinct(c.chain) && forall i :: 0 <= i < |c.chain| ==> c.chain[i].name != ""
  }

  lemma PreviousIsNeighbour(c: Call, attempt: nat)
    requires CleanChain(c) && attempt >= 2
    ensures Previous(c, attempt) == RouteAt(c, attempt - 1)
    ensures ChangeEntries(c, attempt) == if attempt <= |c.chain|
      then [RouteChange(c.chain[attempt - 2], c.chain[attempt - 1], attempt)] else []
  {
  }

  function FaultOf(reply: Reply): Fault {
    if reply.Failed? then reply.fault else OtherFault
  }

  /** Failed attempts 1..k, in order, each on its own route. */
  function FailedAttempts(c: Call, k: nat): seq<Entry>
    requires Fits(c)
  {
    seq(k, j requires 0 <= j < k =>
      Attempt(j + 1, RouteAt(c, j + 1), None, Some(FaultOf(c.replies(j + 1))), Some(true)))
  }

  /** Backoffs 1..k, in order. */
  function Backoffs(c: Call, k: nat): seq<Entry> {
    seq(k, j requires 0 <= j < k => Backoff(j + 1, DelayAt(c, j + 1)))
  }

  lemma {:induction false} RetriedStep(c: Call, k: nat)
    requires Fits(c) && k >= 1
    ensures
      var before, after := RetriedLog(c, k - 1), RetriedLog(c, k);
      && AttemptsIn(after) == AttemptsIn(before) + RequestEntries(c, k)
      && BackoffsIn(after) == BackoffsIn(before) + [Backoff(k, DelayAt(c, k))]
      && ChangesIn(after) == ChangesIn(before) + ChangeEntries(c, k)
  {
    var before, wait := CallLog(c, k), [Backoff(k, DelayAt(c, k))];
    KindsConcat(before, wait);
    CallKinds(c, k);
    SingleKinds(c, k);
  }

  lemma {:induction false} CallKinds(c: Call, k: nat)
    requires Fits(c) && k >= 1
    ensures
      var before, after := RetriedLog(c, k - 1), CallLog(c, k);
      && AttemptsIn(after) == AttemptsIn(before) + RequestEntries(c, k)
      && BackoffsIn(after) == BackoffsIn(before)
      && ChangesIn(after) == ChangesIn(before) + ChangeEntries(c, k)
  {
    var before := RetriedLog(c, k - 1);
    KindsOfThree(before, ChangeEntries(c, k), RequestEntries(c, k));
    SingleKinds(c, k);
    NilLeft(AttemptsIn(before));
    NilLeft(BackoffsIn(before));
    NilLeft(ChangesIn(before) + ChangeEntries(c, k));
  }

  /** After k retried attempts: attempts 1..k in order on their routes, each followed by its one
      backoff, and one route change for each step down the chain. */
  lemma {:induction false} RetriedLogShape(c: Call, k: nat)
    requires CleanChain(c) && forall j :: 1 <= j <= k ==> Retryable(c, j)
    ensures AttemptsIn(RetriedLog(c, k)) == FailedAttempts(c, k)
    ensures BackoffsIn(RetriedLog(c, k)) == Backoffs(c, k)
    ensures ChangesIn(RetriedLog(c, k)) == Changes(c, Min(k, |c.chain|))
  {
    if k > 0 {
      RetriedLogShape(c, k - 1);
      RetriedStep(c, k);
      FailedSnoc(c, k);
      ChangesStep(c, k);
    }
  }

  /** Down the chain, one neighbour after the other, up to its m-th route. */
  function Changes(c: Call, m: nat): seq<Entry>
    requires m <= |c.chain|
  {
    if m <= 1 then [] else seq(m - 1, j requires 0 <= j < m - 1 => RouteChange(c.chain[j], c.chain[j + 1], j + 2))
  }

  lemma ChangesStep(c: Call, k: nat)
    requires CleanChain(c) && k >= 1
    ensures Changes(c, Min(k, |c.chain|)) == Changes(c, Min(k - 1, |c.chain|)) + ChangeEntries(c, k)
  {
    if k > 1 {
      PreviousIsNeighbour(c, k);
    }
  }

  lemma FailedSnoc(c: Call, k: nat)
    requires Fits(c) && k >= 1 && Retryable(c, k)
    ensures FailedAttempts(c, k) == FailedAttempts(c, k - 1) + RequestEntries(c, k)
    ensures Backoffs(c, k) == Backoffs(c, k - 1) + [Backoff(k, DelayAt(c, k))]
  {
  }

  lemma SingleKinds(c: Call, k: nat)
    requires Fits(c) && k >= 1
    ensures AttemptsIn(ChangeEntries(c, k)) == [] && BackoffsIn(ChangeEntries(c, k)) == []
    ensures ChangesIn(ChangeEntries(c, k)) == ChangeEntries(c, k)
    ensures AttemptsIn(RequestEntries(c, k)) == RequestEntries(c, k)
    ensures BackoffsIn(RequestEntries(c, k)) == [] && ChangesIn(RequestEntries(c, k)) == []
    ensures
      var wait := [Backoff(k, DelayAt(c, k))];
      AttemptsIn(wait) == [] && BackoffsIn(wait) == wait && ChangesIn(wait) == []
  {
    var change, request, wait := ChangeEntries(c, k), RequestEntries(c, k), [Backoff(k, DelayAt(c, k))];
    SelectNone(IsAttempt, change);
    SelectNone(IsBackoff, change);
    SelectAll(IsChange, change);
    SelectAll(IsAttempt, request);
    SelectNone(IsBackoff, request);
    SelectNone(IsChange, request);
    SelectNone(IsAttempt, wait);
    SelectAll(IsBackoff, wait);
    SelectNone(IsChange, wait);
  }

  lemma {:induction false} SelectAll(p: Entry -> bool, log: seq<Entry>)
    requires forall i :: 0 <= i < |log| ==> p(log[i])
    ensures Select(p, log) == log
  {
    if log != [] {
      SelectAll(p, log[1..]);
      assert log == [log[0]] + log[1..];
    }
  }

  lemma {:induction false} SelectNone(p: Entry -> bool, log: seq<Entry>)
    requires forall i :: 0 <= i < |log| ==> !p(log[i])
    ensures Select(p, log) == []
  {
    if log != [] {
      SelectNone(p, log[1..]);
    }
  }

  /** The records a call ends with: an answer whose body cannot be read is recorded twice. */
  function LastRecords(c: Call, n: nat): seq<Entry>
    requires c.chain != [] && n >= 1
  {
    var route := c.chain[Min(n, |c.chain|) - 1];
    match c.replies(n)
    case Success(status, _) => [Attempt(n, route, Some(status), None, None)]
    case Unparsable(status) => seq(2, _ => Attempt(n, route, Some(status), Some(OtherFault), Some(false)))
    case Failed(fault) => [Attempt(n, route, None, Some(fault), Some(IsRetryable(fault)))]
  }

  /**
   * The whole log of a call over a duplicate-free chain: the failed attempts in order and the last one, exactly
   * one backoff between neighbours, and one route change for each further route tried, from neighbour to neighbour.
   */
  lemma CallLogShape(c: Call, n: nat)
    requires CleanChain(c) && EndsAt(c, n)
    ensures AttemptsIn(CallLog(c, n)) == FailedAttempts(c, n - 1) + LastRecords(c, n)
    ensures BackoffsIn(CallLog(c, n)) == Backoffs(c, n - 1)
    ensures ChangesIn(CallLog(c, n)) == Changes(c, Min(n, |c.chain|))
  {
    RetriedLogShape(c, n - 1);
    CallKinds(c, n);
    ChangesStep(c, n);
    LastRecordsAre(c, n);
  }

  lemma LastRecordsAre(c: Call, n: nat)
    requires CleanChain(c) && n >= 1
    ensures RequestEntries(c, n) == LastRecords(c, n)
  {
  }

  /** A fault is worth another attempt when it is one of the connection or one of these states of the server. */
  lemma RetryableIff(c: Call, k: nat)
    ensures Retryable(c, k) <==>
      || c.replies(k) == Failed(Timeout) || c.replies(k) == Failed(ConnectFailure)
      || c.replies(k) == Failed(StreamFailure)
      || (c.replies(k).Failed? && c.replies(k).fault.HttpStatus?
          && (c.replies(k).fault.code >= 500 || c.replies(k).fault.code == 429 || c.replies(k).fault.code == 408))
  {
  }

  // ----- the order of the records -----

  predicate IsStep(e: Entry) {
    !e.RouteChange?
  }

  /** k failed attempts, each with its backoff right behind it. */
  function Alternating(c: Call, k: nat): (r: seq<Entry>)
    requires Fits(c)
    ensures |r| == 2 * k
    ensures forall j :: 0 <= j < k ==>
      && r[2 * j] == Attempt(j + 1, RouteAt(c, j + 1), None, Some(FaultOf(c.replies(j + 1))), Some(true))
      && r[2 * j + 1] == Backoff(j + 1, DelayAt(c, j + 1))
  {
    if k == 0 then [] else
      var attempt := Attempt(k, RouteAt(c, k), None, Some(FaultOf(c.replies(k))), Some(true));
      Alternating(c, k - 1) + [attempt, Backoff(k, DelayAt(c, k))]
  }

  lemma {:induction false} StepsOfCall(c: Call, k: nat)
    requires Fits(c) && k >= 1
    ensures Select(IsStep, CallLog(c, k)) == Select(IsStep, RetriedLog(c, k - 1)) + RequestEntries(c, k)
  {
    var before, change, request := RetriedLog(c, k - 1), ChangeEntries(c, k), RequestEntries(c, k);
    SelectConcat(IsStep, before + change, request);
    SelectConcat(IsStep, before, change);
    SelectNone(IsStep, change);
    SelectAll(IsStep, request);
    NilLeft(Select(IsStep, before));
  }

  lemma {:induction false} StepsOfRetries(c: Call, k: nat)
    requires Fits(c) && AllRetryable(c, k)
    ensures Select(IsStep, RetriedLog(c, k)) == Alternating(c, k)
  {
    if k > 0 {
      StepsOfRetries(c, k - 1);
      StepsOfCall(c, k);
      var wait := [Backoff(k, DelayAt(c, k))];
      SelectConcat(IsStep, CallLog(c, k), wait);
      SelectAll(IsStep, wait);
      assert Retryable(c, k);
      Associate(Alternating(c, k - 1), RequestEntries(c, k), wait);
    }
  }

  /** Attempts and backoffs alternate, in order, up to the last attempt. */
  lemma {:induction false} AttemptsAndBackoffsAlternate(c: Call, n: nat)
    requires Fits(c) && EndsAt(c, n)
    ensures Select(IsStep, CallLog(c, n)) == Alternating(c, n - 1) + RequestEntries(c, n)
  {
    StepsOfRetries(c, n - 1);
    StepsOfCall(c, n);
  }

  /** Every route change stands right before the attempt on the new route. */
  ghost predicate ChangesAnnounce(log: seq<Entry>) {
    forall i :: 0 <= i < |log| && log[i].RouteChange? ==>
      i + 1 < |log| && log[i + 1].Attempt? && log[i + 1].number == log[i].attempt && log[i + 1].route == log[i].to
  }

  lemma AnnounceConcat(a: seq<Entry>, b: seq<Entry>)
    requires ChangesAnnounce(a) && ChangesAnnounce(b)
    ensures ChangesAnnounce(a + b)
  {
  }

  lemma {:induction false} CallAnnounces(c: Call, n: nat)
    requires Fits(c) && n >= 1 && ChangesAnnounce(RetriedLog(c, n - 1))
    ensures ChangesAnnounce(CallLog(c, n))
  {
    AnnounceConcat(RetriedLog(c, n - 1), ChangeEntries(c, n) + RequestEntries(c, n));
    Associate(RetriedLog(c, n - 1), ChangeEntries(c, n), RequestEntries(c, n));
  }

  lemma {:induction false} RetriesAnnounce(c: Call, k: nat)
    requires Fits(c)
    ensures ChangesAnnounce(RetriedLog(c, k))
  {
    if k > 0 {
      RetriesAnnounce(c, k - 1);
      CallAnnounces(c, k);
      AnnounceConcat(CallLog(c, k), [Backoff(k, DelayAt(c, k))]);
    }
  }

  lemma EveryChangeIsAnnounced(c: Call, n: nat)
    requires Fits(c) && n >= 1
    ensures ChangesAnnounce(CallLog(c, n))
  {
    RetriesAnnounce(c, n - 1);
    CallAnnounces(c, n);
  }

  /** Attempt k goes to route min(k, |chain|); a route is left for good after one failure. */
  lemma RoutesAdvance(c: Call, j: nat, k: nat)
    requires CleanChain(c) && 1 <= j < k
    ensures RouteAt(c, k) == c.chain[Min(k, |c.chain|) - 1]
    ensures RouteAt(c, j) == RouteAt(c, k) <==> j >= |c.chain|
  {
  }

  // ----- the bound on sleeping -----

  lemma {:induction false} DoubledIs(base: real, n: nat)
    ensures Doubled(base, n) == base * Pow2(n) as real
  {
    if n > 0 {
      DoubledIs(base, n - 1);
      assert Pow2(n) as real == 2.0 * Pow2(n - 1) as real;
    }
  }

  lemma {:induction false} Pow2Adds(m: nat, n: nat)
    ensures Pow2(m + n) == Pow2(m) * Pow2(n) && Pow2(1) == 2
  {
    if n > 0 {
      Pow2Adds(m, n - 1);
    }
  }

  /** The delay before attempt k + 1 is a random part of the base, doubled k - 1 times. */
  lemma {:induction false} DelayIs(c: Call, k: nat)
    requires k >= 1
    ensures DelayAt(c, k) == if c.base <= 0.0 then 0.0 else c.fractions(k) * (c.base * Pow2(k - 1) as real)
  {
    DoubledIs(c.base, k - 1);
  }

  lemma {:induction false} DoubledGrows(base: real, m: nat, n: nat)
    requires base >= 0.0 && m <= n
    ensures 0.0 <= base <= Doubled(base, m) <= Doubled(base, n)
    decreases n
  {
    if m < n {
      DoubledGrows(base, m, n - 1);
    } else if n > 0 {
      DoubledGrows(base, n - 1, n - 1);
    }
  }

  lemma {:induction false} SleepBound(c: Call, k: nat)
    requires Fits(c)
    ensures 0.0 <= TotalDelay(c, k) <= Doubled(c.base, k) - c.base
  {
    if k > 0 {
      SleepBound(c, k - 1);
      assert DelayAt(c, k) <= Doubled(c.base, k - 1);
    }
  }

  /** Whatever the faults and the random fractions, a call never sleeps longer than
      base * (2^maxRetries - 1) in all. */
  lemma {:induction false} TotalSleepBound(c: Call, n: nat)
    requires Fits(c) && EndsAt(c, n)
    ensures 0.0 <= TotalDelay(c, n - 1) <= c.base * Pow2(c.maxRetries) as real - c.base
  {
    SleepBound(c, n - 1);
    DoubledGrows(c.base, n - 1, c.maxRetries);
    DoubledIs(c.base, c.maxRetries);
  }

  // ----- building the chain -----

  /** The non-empty trimmed parts. */
  function Named(parts: seq<string>): seq<Route> {
    if parts == [] then [] else
      var name := Text.Strip(parts[|parts| - 1]);
      Named(parts[..|parts| - 1]) + if name == "" then [] else [Route(name)]
  }

  lemma {:induction false} NamedSnoc(front: seq<string>, last: string)
    ensures Named(front + [last])
         == if Text.Strip(last) == "" then Named(front) else Named(front) + [Route(Text.Strip(last))]
  {
    assert (front + [last])[..|front|] == front;
  }

  /** The named routes are the stripped parts at the places where something is left, in order. */
  lemma {:induction false} NamedPlaces(parts: seq<string>) returns (places: seq<nat>, named: seq<string>)
    ensures PickedAt(parts, named, places) && |Named(parts)| == |named|
    ensures forall k :: 0 <= k < |named| ==> Named(parts)[k] == Route(Text.Strip(named[k]))
    ensures forall i :: 0 <= i < |parts| ==> (i in places <==> Text.Strip(parts[i]) != "")
  {
    places, named := [], [];
    if parts != [] {
      var front, last := parts[..|parts| - 1], parts[|parts| - 1];
      places, named := NamedPlaces(front);
      FrontAndLast(parts);
      PickedSnoc(front, last, named, places);
      if Text.Strip(last) != "" {
        places, named := places + [|front|], named + [last];
      }
    }
  }

  /** `fallback_models`: each named model once, where it is named first. */
  method FallbackModels(parts: seq<string>) returns (ordered: seq<Route>)
    ensures ordered == Firsts(Named(parts))
  {
    var seen: set<Route> := {};
    ordered := [];
    for i := 0 to |parts|
      invariant forall x :: x in seen <==> x in ordered
      invariant ordered == Firsts(Named(parts[..i]))
    {
      TakeMore(parts, i);
      NamedSnoc(parts[..i], parts[i]);
      var name := Route(Text.Strip(parts[i]));
      FirstsSnoc(Named(parts[..i]), name);
      if name.name == "" || name in seen {
        continue;
      }
      seen := seen + {name};
      ordered := ordered + [name];
    }
    assert parts[..|parts|] == parts;
  }

  lemma {:induction false} ChainStep<T>(primary: T, front: seq<T>, last: T)
    ensures var chain := Firsts([primary] + front);
            Firsts([primary] + (front + [last])) == if last in chain then chain else chain + [last]
  {
    Associate([primary], front, [last]);
    FirstsSnoc([primary] + front, last);
    NilLeft(Firsts([primary] + front));
  }

  /** The primary, then each fallback once: the chain of `_ninerouter`, and that of `chat`. */
  method BuildChain<T(==)>(primary: T, fallbacks: seq<T>) returns (chain: seq<T>)
    ensures chain == Firsts([primary] + fallbacks) && chain != [] && chain[0] == primary
  {
    chain := [primary];
    FirstsSnoc([], primary);
    NilLeft([primary]);
    for i := 0 to |fallbacks|
      invariant chain != [] && chain[0] == primary && chain == Firsts([primary] + fallbacks[..i])
    {
      ChainStep(primary, fallbacks[..i], fallbacks[i]);
      TakeMore(fallbacks, i);
      assert primary in chain;
      if fallbacks[i] != primary && fallbacks[i] !in chain {
        chain := chain + [fallbacks[i]];
      }
    }
    assert fallbacks[..|fallbacks|] == fallbacks;
  }
}
