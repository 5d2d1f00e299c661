/** `chat`: each provider style of a chain is asked once, in order, until one answers (app/llm/provider.py). */
module StyleFailover {
  import opened Seqs
  import RetryLoop

  /** A normalised style label. */
  datatype Style = Style(name: string)

  /** How one style ends: `Crash` is any exception but LLMError. */
  datatype Reply = Answer(content: string) | LLMError(message: string) | Crash

  datatype Hop = Hop(frm: Style, to: Style, error: string)

  /** The known ones among these labels. */
  function Known(labels: seq<Style>, supported: set<Style>): seq<Style> {
    if labels == [] then [] else
      var last := labels[|labels| - 1];
      Known(labels[..|labels| - 1], supported) + if last in supported then [last] else []
  }

  lemma {:induction false} KnownSnoc(front: seq<Style>, last: Style, supported: set<Style>)
    ensures Known(front + [last], supported)
         == if last in supported then Known(front, supported) + [last] else Known(front, supported)
  {
    assert (front + [last])[..|front|] == front;
  }

  /** `fallback_styles`: unknown labels are dropped, repeated ones count once. */
  method FallbackStyles(labels: seq<Style>, supported: set<Style>) returns (ordered: seq<Style>)
    ensures ordered == Firsts(Known(labels, supported))
  {
    var seen: set<Style> := {};
    ordered := [];
    for i := 0 to |labels|
      invariant forall x :: x in seen <==> x in ordered
      invariant ordered == Firsts(Known(labels[..i], supported))
    {
      TakeMore(labels, i);
      KnownSnoc(labels[..i], labels[i], supported);
      FirstsSnoc(Known(labels[..i], supported), labels[i]);
      if labels[i] !in supported || labels[i] in seen {
        continue;
      }
      seen := seen + {labels[i]};
      ordered := ordered + [labels[i]];
    }
    assert labels[..|labels|] == labels;
  }

  function Chain(primary: Style, fallbacks: seq<Style>): seq<Style> {
    Firsts([primary] + fallbacks)
  }

  /** The style whose reply is the reply of the call: the first that does not fail, or the last of all. */
  ghost predicate Decides(chain: seq<Style>, replies: Style -> Reply, k: nat) {
    && k < |chain|
    && (forall i :: 0 <= i < k ==> replies(chain[i]).LLMError?)
    && (k == |chain| - 1 || !replies(chain[k]).LLMError?)
  }

  /** One record for each hop, with the reason for it. */
  function Hops(chain: seq<Style>, replies: Style -> Reply, k: nat): seq<Hop>
    requires k < |chain|
    requires forall i :: 0 <= i < k ==> replies(chain[i]).LLMError?
  {
    seq(k, i requires 0 <= i < k =>
      Hop(chain[i], chain[i + 1], replies(chain[i]).message[..Min(300, |replies(chain[i]).message|)]))
  }

  method Chat(primary: Style, fallbacks: seq<Style>, replies: Style -> Reply)
    returns (reply: Reply, log: seq<Hop>, ghost k: nat)
    ensures Decides(Chain(primary, fallbacks), replies, k)
    ensures reply == replies(Chain(primary, fallbacks)[k])
    ensures log == Hops(Chain(primary, fallbacks), replies, k)
    // the call fails only when every style has failed
    ensures reply.LLMError? <==>
      forall i :: 0 <= i < |Chain(primary, fallbacks)| ==> replies(Chain(primary, fallbacks)[i]).LLMError?
  {
    var chain := RetryLoop.BuildChain(primary, fallbacks);
    log, k := [], 0;
    if |chain| == 1 {
      return replies(primary), [], 0;
    }
    var index := 0;
    while true
      invariant 0 <= index < |chain|
      invariant forall i :: 0 <= i < index ==> replies(chain[i]).LLMError?
      invariant log == Hops(chain, replies, index)
      decreases |chain| - index
    {
      reply := replies(chain[index]);
      if !reply.LLMError? {
        return reply, log, index;
      }
      if index == |chain| - 1 {
        return reply, log, index;
      }
      log := log + [Hop(chain[index], chain[index + 1], reply.message[..Min(300, |reply.message|)])];
      index := index + 1;
    }
  }

  /** Every style asked is asked once, and all but the decisive one leave exactly one hop. */
  lemma {:induction false} HopsVisitOnce(primary: Style, fallbacks: seq<Style>, replies: Style -> Reply, k: nat)
    requires Decides(Chain(primary, fallbacks), replies, k)
    ensures var log := Hops(Chain(primary, fallbacks), replies, k);
            && |log| == k
            && (forall i :: 0 <= i < k ==>
                  var style := Chain(primary, fallbacks)[i];
                  && log[i].frm == style && log[i].to == Chain(primary, fallbacks)[i + 1]
                  && log[i].error <= replies(style).message
                  && |log[i].error| == Min(|replies(style).message|, 300))
            && (forall i :: 0 <= i < k - 1 ==> log[i].to == log[i + 1].frm)
            && (forall i, j :: 0 <= i < j < k ==> log[i].frm != log[j].frm && log[i].to != log[j].to)
            && (forall i :: 0 <= i < k ==> log[i].to != primary)
  {
    var chain := Chain(primary, fallbacks);
    PrimaryFirst(primary, fallbacks);
    assert forall i :: 0 < i < |chain| ==> chain[i] != chain[0];
  }

  lemma {:induction false} PrimaryFirst(primary: Style, fallbacks: seq<Style>)
    ensures Chain(primary, fallbacks) != [] && Chain(primary, fallbacks)[0] == primary
  {
    if fallbacks == [] {
      assert [primary] + fallbacks == [] + [primary];
      FirstsSnoc([], primary);
    } else {
      var front, last := fallbacks[..|fallbacks| - 1], fallbacks[|fallbacks| - 1];
      PrimaryFirst(primary, front);
      assert [primary] + fallbacks == [primary] + front + [last];
      FirstsSnoc([primary] + front, last);
    }
  }

  lemma {:induction false} KnownMembers(labels: seq<Style>, supported: set<Style>, x: Style)
    ensures x in Known(labels, supported) <==> x in labels && x in supported
  {
    if labels != [] {
      var front, last := labels[..|labels| - 1], labels[|labels| - 1];
      assert labels == front + [last];
      KnownMembers(front, supported, x);
    }
  }

  function SupportedPlaces(labels: seq<Style>, supported: set<Style>): set<nat> {
    set i: nat | i < |labels| && labels[i] in supported
  }

  /** The known styles are the supported labels, in order. */
  lemma {:induction false} KnownPlaces(labels: seq<Style>, supported: set<Style>) returns (places: seq<nat>)
    ensures PickedAt(labels, Known(labels, supported), places) && SetOf(places) == SupportedPlaces(labels, supported)
  {
    places := [];
    if labels != [] {
      var front, last := labels[..|labels| - 1], labels[|labels| - 1];
      places := KnownPlaces(front, supported);
      FrontAndLast(labels);
      assert SupportedPlaces(labels, supported)
          == SupportedPlaces(front, supported) + if last in supported then {|front|} else {};
      places := PickNext(front, last, Known(front, supported), places, last in supported);
    }
  }

  /** The styles asked are the primary and the known ones among the labels. */
  lemma {:induction false} ChainMembers(primary: Style, labels: seq<Style>, supported: set<Style>, x: Style)
    ensures x in Chain(primary, Firsts(Known(labels, supported))) <==> x == primary || (x in labels && x in supported)
  {
    var fallbacks := Firsts(Known(labels, supported));
    FirstsMembers([primary] + fallbacks, x);
    FirstsMembers(Known(labels, supported), x);
    KnownMembers(labels, supported, x);
  }
}
