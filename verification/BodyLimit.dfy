/**
 * `BodyLimitMiddleware`: the request body is bounded on the bytes received (app/main.py). A handler is any
 * sequence of receive and send calls, each receive with the message it gets, ending normally or raising.
 */
module BodyLimit {
  import opened Seqs

  newtype Byte = x: int | 0 <= x < 256

  /** What the server delivers to `receive`. */
  datatype Incoming = Request(body: seq<Byte>, more: bool) | Disconnect

  /** What is passed to `send`. */
  datatype Message = Start(status: nat) | Body(body: seq<Byte>, more: bool)

  datatype Event = Receive(message: Incoming) | Send(reply: Message)

  /** The counters of one request, what the handler has been given, and what has gone out. */
  datatype State = State(received: nat, exceeded: bool, responded: bool, seen: seq<Incoming>, sent: seq<Message>)

  const FRESH := State(0, false, false, [], [])

  /** The empty chunk that ends the stream. */
  const END := Request([], false)

  /** `{"detail":"request body too large"}` */
  const TOO_LARGE: seq<Byte> := [
    123, 34, 100, 101, 116, 97, 105, 108, 34, 58, 34, 114, 101, 113, 117, 101, 115, 116, 32, 98,
    111, 100, 121, 32, 116, 111, 111, 32, 108, 97, 114, 103, 101, 34, 125
  ]

  /** One complete 413 response. */
  const REJECTION: seq<Message> := [Start(413), Body(TOO_LARGE, false)]

  function Bytes(m: Incoming): nat {
    if m.Request? then |m.body| else 0
  }

  function AfterReceive(s: State, max: nat, m: Incoming): State {
    if m.Disconnect? then s.(seen := s.seen + [m])
    else if s.received + |m.body| > max then
      s.(received := s.received + |m.body|, exceeded := true, seen := s.seen + [END])
    else s.(received := s.received + |m.body|, seen := s.seen + [m])
  }

  function AfterSend(s: State, m: Message): State {
    if !s.exceeded then s.(sent := s.sent + [m])
    else if !s.responded then s.(responded := true, sent := s.sent + REJECTION)
    else s
  }

  function Step(s: State, max: nat, e: Event): State {
    match e
    case Receive(m) => AfterReceive(s, max, m)
    case Send(m) => AfterSend(s, m)
  }

  function Run(s: State, max: nat, events: seq<Event>): State
    decreases |events|
  {
    if events == [] then s else Run(Step(s, max, events[0]), max, events[1..])
  }

  /** After the handler: a rejection that is still owed is sent, unless the handler raised. */
  function Finish(s: State, raises: bool): State {
    if !raises && s.exceeded && !s.responded then s.(responded := true, sent := s.sent + REJECTION) else s
  }

  function Handled(max: nat, declared: Option<int>, events: seq<Event>, raises: bool): State {
    if declared.Some? && declared.value > max then FRESH.(sent := REJECTION)
    else Finish(Run(FRESH, max, events), raises)
  }

  class Middleware {
    const maxBytes: nat
    var received: nat
    var exceeded: bool
    var responded: bool
    var seen: seq<Incoming>
    var sent: seq<Message>

    constructor (maxBytes: nat)
      ensures Contents() == FRESH && this.maxBytes == maxBytes
    {
      this.maxBytes := maxBytes;
      received, exceeded, responded, seen, sent := 0, false, false, [], [];
    }

    ghost function Contents(): State
      reads this
    {
      State(received, exceeded, responded, seen, sent)
    }

    method Reject()
      modifies this`sent
      ensures sent == old(sent) + REJECTION
    {
      sent := sent + [Start(413)];
      sent := sent + [Body(TOO_LARGE, false)];
    }

    method LimitedReceive(message: Incoming) returns (given: Incoming)
      modifies this
      ensures Contents() == AfterReceive(old(Contents()), maxBytes, message)
      ensures seen == old(seen) + [given]
    {
      given := message;
      if message.Request? {
        received := received + |message.body|;
        if received > maxBytes {
          exceeded := true;
          given := Request([], false);
        }
      }
      seen := seen + [given];
    }

    method GuardedSend(message: Message)
      modifies this
      ensures Contents() == AfterSend(old(Contents()), message)
    {
      if exceeded {
        if !responded {
          responded := true;
          Reject();
        }
        return;
      }
      sent := sent + [message];
    }

    method Call(declared: Option<int>, events: seq<Event>, raises: bool)
      requires Contents() == FRESH
      modifies this
      ensures Contents() == Handled(maxBytes, declared, events, raises)
    {
      if declared.Some? && declared.value > maxBytes {
        Reject();
        return;
      }
      var i := 0;
      while i < |events|
        invariant 0 <= i <= |events|
        invariant Run(Contents(), maxBytes, events[i..]) == Run(FRESH, maxBytes, events)
      {
        assert events[i..][0] == events[i] && events[i..][1..] == events[i + 1..];
        match events[i] {
          case Receive(m) => var _ := LimitedReceive(m);
          case Send(m) => GuardedSend(m);
        }
        i := i + 1;
      }
      if !raises && exceeded && !responded {
        responded := true;
        Reject();
      }
    }
  }

  // ----- what a sequence of events says, without the middleware -----

  function Arrivals(events: seq<Event>): seq<Incoming> {
    if events == [] then []
    else if events[0].Receive? then [events[0].message] + Arrivals(events[1..])
    else Arrivals(events[1..])
  }

  function Sends(events: seq<Event>): seq<Message> {
    if events == [] then []
    else if events[0].Send? then [events[0].reply] + Sends(events[1..])
    else Sends(events[1..])
  }

  function Total(messages: seq<Incoming>): nat {
    if messages == [] then 0 else Bytes(messages[0]) + Total(messages[1..])
  }

  /** The bytes that arrive in these events. */
  function Arrived(events: seq<Event>): nat {
    Total(Arrivals(events))
  }

  function EventBytes(e: Event): nat {
    if e.Receive? then Bytes(e.message) else 0
  }

  lemma ArrivedStep(events: seq<Event>)
    requires events != []
    ensures Arrived(events) == EventBytes(events[0]) + Arrived(events[1..])
  {
    if events[0].Receive? {
      assert Arrivals(events)[1..] == Arrivals(events[1..]);
    }
  }

  /** The events before the chunk that crosses the limit; all of them when none does. */
  function Before(events: seq<Event>, received: nat, max: nat): (n: nat)
    ensures n <= |events|
    decreases |events|
  {
    if events == [] || received + EventBytes(events[0]) > max then 0
    else 1 + Before(events[1..], received + EventBytes(events[0]), max)
  }

  /** The chunks a handler is given once the limit is crossed. */
  function Emptied(messages: seq<Incoming>): (r: seq<Incoming>)
    ensures |r| == |messages|
    ensures forall i :: 0 <= i < |r| ==> r[i] == if messages[i].Request? then END else messages[i]
  {
    if messages == [] then []
    else [if messages[0].Request? then END else messages[0]] + Emptied(messages[1..])
  }

  // ----- the run, before and after the limit is crossed -----

  lemma {:induction false} RunWithin(s: State, max: nat, events: seq<Event>)
    requires !s.exceeded && s.received + Arrived(events) <= max
    ensures Run(s, max, events) == s.(received := s.received + Arrived(events),
                                      seen := s.seen + Arrivals(events), sent := s.sent + Sends(events))
    decreases |events|
  {
    if events == [] {
      assert s.seen + [] == s.seen && s.sent + [] == s.sent;
    } else {
      ArrivedStep(events);
      var rest := events[1..];
      RunWithin(Step(s, max, events[0]), max, rest);
      match events[0] {
        case Receive(m) => assert s.seen + [m] + Arrivals(rest) == s.seen + ([m] + Arrivals(rest));
        case Send(m) => assert s.sent + [m] + Sends(rest) == s.sent + ([m] + Sends(rest));
      }
    }
  }

  /** Where a state over the limit gets to when these messages arrive and these are sent. */
  function Beyond(s: State, arrivals: seq<Incoming>, sends: seq<Message>): State {
    s.(received := s.received + Total(arrivals),
       responded := s.responded || sends != [],
       seen := s.seen + Emptied(arrivals),
       sent := s.sent + if s.responded || sends == [] then [] else REJECTION)
  }

  lemma BeyondReceive(s: State, max: nat, m: Incoming, arrivals: seq<Incoming>, sends: seq<Message>)
    requires s.exceeded && s.received > max
    ensures Beyond(AfterReceive(s, max, m), arrivals, sends) == Beyond(s, [m] + arrivals, sends)
  {
    assert ([m] + arrivals)[1..] == arrivals;
    var given := if m.Request? then END else m;
    assert s.seen + [given] + Emptied(arrivals) == s.seen + ([given] + Emptied(arrivals));
  }

  lemma BeyondSend(s: State, m: Message, arrivals: seq<Incoming>, sends: seq<Message>)
    requires s.exceeded
    ensures Beyond(AfterSend(s, m), arrivals, sends) == Beyond(s, arrivals, [m] + sends)
  {
    assert s.sent + REJECTION + [] == s.sent + REJECTION;
  }

  lemma {:induction false} RunBeyond(s: State, max: nat, events: seq<Event>)
    requires s.exceeded && s.received > max
    ensures Run(s, max, events) == Beyond(s, Arrivals(events), Sends(events))
    decreases |events|
  {
    if events == [] {
      assert s.seen + [] == s.seen && s.sent + [] == s.sent;
    } else {
      var rest := events[1..];
      RunBeyond(Step(s, max, events[0]), max, rest);
      match events[0] {
        case Receive(m) => BeyondReceive(s, max, m, Arrivals(rest), Sends(rest));
        case Send(m) => BeyondSend(s, m, Arrivals(rest), Sends(rest));
      }
    }
  }

  lemma {:induction false} RunConcat(s: State, max: nat, a: seq<Event>, b: seq<Event>)
    ensures Run(s, max, a + b) == Run(Run(s, max, a), max, b)
    decreases |a|
  {
    if a == [] {
      assert a + b == b;
    } else {
      RunConcat(Step(s, max, a[0]), max, a[1..], b);
      assert (a + b)[1..] == a[1..] + b;
    }
  }

  lemma {:induction false} BeforeIs(events: seq<Event>, received: nat, max: nat)
    requires received <= max
    ensures var n := Before(events, received, max);
            && received + Arrived(events[..n]) <= max
            && (n < |events| ==> events[n].Receive? && received + Arrived(events[..n]) + EventBytes(events[n]) > max)
            && (n < |events| <==> received + Arrived(events) > max)
    decreases |events|
  {
    var n := Before(events, received, max);
    if events != [] {
      ArrivedStep(events);
      if n > 0 {
        BeforeIs(events[1..], received + EventBytes(events[0]), max);
        ArrivedStep(events[..n]);
        assert events[..n][1..] == events[1..][..n - 1];
      }
    }
  }

  /** The state once the events up to the crossing one have been handled. */
  function Crossed(events: seq<Event>, n: nat): State
    requires n < |events|
  {
    State(Arrived(events[..n]) + EventBytes(events[n]), true, false, Arrivals(events[..n]) + [END], Sends(events[..n]))
  }

  lemma {:induction false} RunAcross(max: nat, events: seq<Event>)
    requires Before(events, 0, max) < |events|
    ensures var n := Before(events, 0, max);
            && Crossed(events, n).received > max && events[n].Receive?
            && Run(FRESH, max, events) == Beyond(Crossed(events, n), Arrivals(events[n + 1..]), Sends(events[n + 1..]))
  {
    var n := Before(events, 0, max);
    var rest := events[n + 1..];
    BeforeIs(events, 0, max);
    RunWithin(FRESH, max, events[..n]);
    assert events == events[..n] + ([events[n]] + rest);
    RunConcat(FRESH, max, events[..n], [events[n]] + rest);
    assert ([events[n]] + rest)[1..] == rest;
    var s := Run(FRESH, max, events[..n]);
    assert [] + Arrivals(events[..n]) == Arrivals(events[..n]) && [] + Sends(events[..n]) == Sends(events[..n]);
    assert Step(s, max, events[n]) == Crossed(events, n);
    RunBeyond(Crossed(events, n), max, rest);
  }

  lemma {:induction false} RunAllWithin(max: nat, events: seq<Event>)
    requires Before(events, 0, max) == |events|
    ensures Run(FRESH, max, events)
         == FRESH.(received := Arrived(events), seen := Arrivals(events), sent := Sends(events))
  {
    BeforeIs(events, 0, max);
    assert events[..|events|] == events;
    RunWithin(FRESH, max, events);
    assert [] + Arrivals(events) == Arrivals(events) && [] + Sends(events) == Sends(events);
  }

  // ----- the promises -----

  lemma {:induction false} TotalConcat(a: seq<Incoming>, b: seq<Incoming>)
    ensures Total(a + b) == Total(a) + Total(b)
  {
    if a == [] {
      assert a + b == b;
    } else {
      TotalConcat(a[1..], b);
      assert (a + b)[1..] == a[1..] + b;
    }
  }

  lemma {:induction false} EmptiedIsEmpty(messages: seq<Incoming>)
    ensures Total(Emptied(messages)) == 0
  {
    if messages != [] {
      EmptiedIsEmpty(messages[1..]);
      assert Emptied(messages)[1..] == Emptied(messages[1..]);
    }
  }

  /** The handler is never given more bytes than the limit, whatever arrives and whatever it does. */
  lemma ForwardedIsBounded(max: nat, declared: Option<int>, events: seq<Event>, raises: bool)
    ensures Total(Handled(max, declared, events, raises).seen) <= max
  {
    var n := Before(events, 0, max);
    BeforeIs(events, 0, max);
    if n == |events| {
      RunAllWithin(max, events);
      assert events[..n] == events;
    } else {
      RunAcross(max, events);
      EmptiedIsEmpty(Arrivals(events[n + 1..]));
      TotalConcat(Arrivals(events[..n]) + [END], Emptied(Arrivals(events[n + 1..])));
      TotalConcat(Arrivals(events[..n]), [END]);
    }
  }

  /**
   * Within the limit the middleware is invisible: every message passes unchanged, in both directions.
   * The handler is given what arrived only then.
   */
  lemma {:induction false} TransparentIff(max: nat, declared: Option<int>, events: seq<Event>, raises: bool)
    requires declared.Some? ==> declared.value <= max
    ensures Handled(max, declared, events, raises).seen == Arrivals(events) <==> Arrived(events) <= max
    ensures Arrived(events) <= max ==> Handled(max, declared, events, raises).sent == Sends(events)
  {
    BeforeIs(events, 0, max);
    if Arrived(events) <= max {
      RunAllWithin(max, events);
    } else {
      ForwardedIsBounded(max, declared, events, raises);
    }
  }

  /**
   * What goes out, for every handler. A declared size over the limit is refused before anything is read.
   * Otherwise it is what the handler sends, up to the chunk that crosses the limit, and once that one has
   * come exactly one complete 413, missing only when the handler raises without sending anything more.
   * From that chunk on the handler is given empty final chunks.
   */
  lemma {:induction false} RejectedOnce(max: nat, declared: Option<int>, events: seq<Event>, raises: bool)
    ensures var n, s := Before(events, 0, max), Handled(max, declared, events, raises);
            && (n < |events| <==> Arrived(events) > max)
            && if declared.Some? && declared.value > max then s.seen == [] && s.sent == REJECTION
               else if n == |events| then s.seen == Arrivals(events) && s.sent == Sends(events)
               else && s.seen == Arrivals(events[..n]) + [END] + Emptied(Arrivals(events[n + 1..]))
                    && s.sent == Sends(events[..n]) + (if s.responded then REJECTION else [])
                    && (s.responded <==> !raises || Sends(events[n + 1..]) != [])
  {
    BeforeIs(events, 0, max);
    if Before(events, 0, max) == |events| {
      RunAllWithin(max, events);
    } else {
      RunAcross(max, events);
    }
  }

  function Starts(messages: seq<Message>): nat {
    if messages == [] then 0 else (if messages[0].Start? then 1 else 0) + Starts(messages[1..])
  }

  lemma {:induction false} StartsConcat(a: seq<Message>, b: seq<Message>)
    ensures Starts(a + b) == Starts(a) + Starts(b)
  {
    if a == [] {
      assert a + b == b;
    } else {
      StartsConcat(a[1..], b);
      assert (a + b)[1..] == a[1..] + b;
    }
  }

  lemma {:induction false} RejectionStartsOnce(body: seq<Byte>)
    ensures Starts([Start(413), Body(body, false)]) == 1
  {
    assert [Start(413), Body(body, false)] == [Start(413)] + [Body(body, false)];
    StartsConcat([Start(413)], [Body(body, false)]);
  }

  /** The rejection is the only response exactly when the handler had sent nothing, and starts the only one
      exactly when the handler had started none, before the limit was crossed. */
  lemma {:induction false} RejectionStandsAloneIff(max: nat, declared: Option<int>, events: seq<Event>, raises: bool)
    requires Arrived(events) > max && (declared.Some? ==> declared.value <= max)
    requires raises ==>
      var n := Before(events, 0, max);
      n < |events| && Sends(events[n + 1..]) != []
    ensures var before, sent := Sends(events[..Before(events, 0, max)]), Handled(max, declared, events, raises).sent;
            && (sent == REJECTION <==> before == [])
            && (Starts(sent) == 1 <==> Starts(before) == 0)
  {
    RejectedOnce(max, declared, events, raises);
    var before := Sends(events[..Before(events, 0, max)]);
    StartsConcat(before, REJECTION);
    RejectionStartsOnce(TOO_LARGE);
    assert |before + REJECTION| == |before| + |REJECTION|;
    if before == [] {
      assert before + REJECTION == REJECTION;
    }
  }

  /** A handler that answers before it has read the body to the end makes two responses start. */
  lemma {:induction false} EarlyAnswerStartsTwice(max: nat, body: seq<Byte>)
    requires |body| > max
    ensures Handled(max, None, [Send(Start(200)), Receive(Request(body, false))], false).sent
         == [Start(200), Start(413), Body(TOO_LARGE, false)]
  {
    var events := [Send(Start(200)), Receive(Request(body, false))];
    assert events[1..] == [Receive(Request(body, false))] && events[1..][1..] == [];
    var s := Step(FRESH, max, events[0]);
    assert s.sent == [Start(200)];
    assert Run(FRESH, max, events) == Run(s, max, events[1..]);
    assert Run(s, max, events[1..]) == Step(s, max, events[1]);
  }

  /** The rejection: status 413, then one final body with the text of the error. */
  lemma RejectionIs()
    ensures var text := "{\"detail\":\"request body too large\"}";
            && |TOO_LARGE| == |text| && (forall i :: 0 <= i < |text| ==> TOO_LARGE[i] as int == text[i] as int)
            && REJECTION == [Start(413), Body(TOO_LARGE, false)]
  {
  }
}
