/** `provision_gateway_key`: reuse, rotate or mint the local gateway key (app/llm/ninerouter.py). */
module GatewayKeys {
  import opened Seqs
  import opened Gateway
  import Text

  datatype Key = Key(text: string)

  /** A key record as it is listed; the plaintext and the id may be missing. */
  datatype Record = Record(id: Option<Name>, name: Name, active: bool, key: Option<Key>)

  datatype Status = Reused | Rotated | Created

  datatype Outcome = Provisioned(key: Key, id: Option<Name>, status: Status) | MintFailed

  /** What the gateway does in one call: which keys it accepts, whether a deletion works, what it mints. */
  datatype Replies = Replies(accepts: Key -> bool, deletes: bool, minted: Option<(Option<Name>, Key)>)

  predicate Matches(r: Record, name: Name) {
    r.name == name && r.active && r.key.Some? && r.key.value.text != ""
  }

  function FirstMatch(keys: seq<Record>, name: Name): (m: Option<Record>)
    ensures m.Some? ==> Matches(m.value, name) && m.value in keys
  {
    if keys == [] then None else if Matches(keys[0], name) then Some(keys[0]) else FirstMatch(keys[1..], name)
  }

  /** The records that are left when the one with this id is deleted. */
  function WithoutId(keys: seq<Record>, id: Name): seq<Record> {
    if keys == [] then []
    else if keys[0].id == Some(id) then WithoutId(keys[1..], id)
    else [keys[0]] + WithoutId(keys[1..], id)
  }

  /** What is left of the table when a rejected record has been dealt with. */
  function AfterDeletion(keys: seq<Record>, rejected: Record, deletes: bool): seq<Record> {
    if rejected.id.Some? && deletes then WithoutId(keys, rejected.id.value) else keys
  }

  /** The gateway mints a usable key when asked. */
  predicate Minted(g: Replies) {
    g.minted.Some? && g.minted.value.1.text != ""
  }

  function MintKey(keys: seq<Record>, name: Name, g: Replies, status: Status): (seq<Record>, Outcome) {
    if !Minted(g) then (keys, MintFailed) else
      var (id, key) := g.minted.value;
      (keys + [Record(id, name, true, Some(key))], Provisioned(key, id, status))
  }

  /** The key at hand is stripped and validated; an empty one is never accepted. */
  predicate Usable(existing: string, g: Replies) {
    Text.Strip(existing) != "" && g.accepts(Key(Text.Strip(existing)))
  }

  function Provision(keys: seq<Record>, name: Name, existing: string, g: Replies): (seq<Record>, Outcome) {
    if Usable(existing, g) then (keys, Provisioned(Key(Text.Strip(existing)), None, Reused))
    else match FirstMatch(keys, name)
         case None => MintKey(keys, name, g, Created)
         case Some(m) =>
           if g.accepts(m.key.value) then (keys, Provisioned(m.key.value, m.id, Reused))
           else MintKey(AfterDeletion(keys, m, g.deletes), name, g, Rotated)
  }

  class KeyTable {
    var keys: seq<Record>

    constructor ()
      ensures keys == []
    {
      keys := [];
    }

    method Delete(id: Name)
      modifies this
      ensures keys == WithoutId(old(keys), id) && KeepsOthers(old(keys), keys, id)
    {
      var left: seq<Record> := [];
      var i := 0;
      while i < |keys|
        invariant 0 <= i <= |keys| && keys == old(keys)
        invariant left + WithoutId(keys[i..], id) == WithoutId(keys, id)
      {
        assert keys[i..][1..] == keys[i + 1..];
        if keys[i].id != Some(id) {
          assert left + ([keys[i]] + WithoutId(keys[i + 1..], id)) == left + [keys[i]] + WithoutId(keys[i + 1..], id);
          left := left + [keys[i]];
        }
        i := i + 1;
      }
      assert left + [] == left;
      DeletionKeepsOthers(keys, id);
      keys := left;
    }

    method ProvisionGatewayKey(name: Name, existing: string, g: Replies) returns (r: Outcome)
      modifies this
      ensures (keys, r) == Provision(old(keys), name, existing, g)
    {
      var stripped := Text.Strip(existing);
      if stripped != "" && g.accepts(Key(stripped)) {
        return Provisioned(Key(stripped), None, Reused);
      }
      var found: Option<Record> := None;
      var i := 0;
      while i < |keys|
        invariant 0 <= i <= |keys| && keys == old(keys)
        invariant found.None? && FirstMatch(keys[i..], name) == FirstMatch(keys, name)
      {
        assert keys[i..][1..] == keys[i + 1..];
        if keys[i].name == name && keys[i].active && keys[i].key.Some? && keys[i].key.value.text != "" {
          found := Some(keys[i]);
          break;
        }
        i := i + 1;
      }
      assert found == FirstMatch(old(keys), name);
      if found.Some? {
        var m := found.value;
        if g.accepts(m.key.value) {
          return Provisioned(m.key.value, m.id, Reused);
        }
        if m.id.Some? && g.deletes {
          Delete(m.id.value);
        }
      }
      if g.minted.None? || g.minted.value.1.text == "" {
        return MintFailed;
      }
      var (id, key) := g.minted.value;
      keys := keys + [Record(id, name, true, Some(key))];
      r := Provisioned(key, id, if found.Some? then Rotated else Created);
    }
  }

  // ----- what a deletion keeps -----

  /** The places of the records without this id. */
  function OtherPlaces(keys: seq<Record>, id: Name): set<nat> {
    set i: nat | i < |keys| && keys[i].id != Some(id)
  }

  /** All records but those with the id are left, each where it stood among the others. */
  ghost predicate KeepsOthers(keys: seq<Record>, left: seq<Record>, id: Name) {
    exists places: seq<nat> :: PickedAt(keys, left, places) && SetOf(places) == OtherPlaces(keys, id)
  }

  lemma {:induction false} WithoutIdSnoc(front: seq<Record>, last: Record, id: Name)
    ensures WithoutId(front + [last], id)
         == if last.id == Some(id) then WithoutId(front, id) else WithoutId(front, id) + [last]
  {
    if front != [] {
      WithoutIdSnoc(front[1..], last, id);
      ConsConcat(front, [last]);
    }
  }

  lemma {:induction false} DeletionPlaces(keys: seq<Record>, id: Name) returns (places: seq<nat>)
    ensures PickedAt(keys, WithoutId(keys, id), places) && SetOf(places) == OtherPlaces(keys, id)
    decreases |keys|
  {
    places := [];
    if keys != [] {
      var front, last := keys[..|keys| - 1], keys[|keys| - 1];
      places := DeletionPlaces(front, id);
      FrontAndLast(keys);
      WithoutIdSnoc(front, last, id);
      assert OtherPlaces(keys, id) == OtherPlaces(front, id) + if last.id == Some(id) then {} else {|front|};
      places := PickNext(front, last, WithoutId(front, id), places, last.id != Some(id));
    }
  }

  lemma DeletionKeepsOthers(keys: seq<Record>, id: Name)
    ensures KeepsOthers(keys, WithoutId(keys, id), id)
  {
    var places := DeletionPlaces(keys, id);
  }

  // ----- what one call does -----

  /** Where the first record stands that can be used under this name, if there is one. */
  ghost predicate FirstUsable(keys: seq<Record>, name: Name, place: Option<nat>) {
    var end := if place.Some? then place.value else |keys|;
    && end <= |keys|
    && (place.Some? ==> end < |keys| && keys[end].name == name && keys[end].active
                        && keys[end].key.Some? && keys[end].key.value.text != "")
    && forall j :: 0 <= j < end ==>
         keys[j].name != name || !keys[j].active || keys[j].key.None? || keys[j].key.value.text == ""
  }

  lemma {:induction false} FirstMatchIsFirst(keys: seq<Record>, name: Name) returns (place: Option<nat>)
    ensures FirstUsable(keys, name, place)
    ensures FirstMatch(keys, name) == if place.Some? then Some(keys[place.value]) else None
  {
    if keys == [] {
      place := None;
    } else if Matches(keys[0], name) {
      place := Some(0);
    } else {
      place := FirstMatchIsFirst(keys[1..], name);
      if place.Some? {
        place := Some(place.value + 1);
      }
    }
  }

  /** A new key under the name at the end of what is left, if the gateway mints one that is not empty. */
  ghost predicate MintedAfter(left: seq<Record>, after: seq<Record>, name: Name, g: Replies, r: Outcome,
                              status: Status) {
    if g.minted.Some? && g.minted.value.1.text != ""
    then r == Provisioned(g.minted.value.1, g.minted.value.0, status)
         && after == left + [Record(g.minted.value.0, name, true, Some(g.minted.value.1))]
    else r == MintFailed && after == left
  }

  /**
   * The persisted key is kept if it is accepted, then the first usable record of the name, and nothing is
   * changed. A rejected record is deleted if that works, all others being left, and one key is minted.
   */
  lemma {:induction false} ProvisioningIs(keys: seq<Record>, name: Name, existing: string, g: Replies,
                                          place: Option<nat>)
    requires FirstUsable(keys, name, place)
    ensures var (after, r) := Provision(keys, name, existing, g);
            if Text.Strip(existing) != "" && g.accepts(Key(Text.Strip(existing)))
            then after == keys && r == Provisioned(Key(Text.Strip(existing)), None, Reused)
            else if place.None? then MintedAfter(keys, after, name, g, r, Created)
            else
              var m := keys[place.value];
              if g.accepts(m.key.value) then after == keys && r == Provisioned(m.key.value, m.id, Reused)
              else if m.id.None? || !g.deletes then MintedAfter(keys, after, name, g, r, Rotated)
              else exists left :: KeepsOthers(keys, left, m.id.value) && MintedAfter(left, after, name, g, r, Rotated)
  {
    var found := FirstMatchIsFirst(keys, name);
    assert found == place;
    if place.Some? && keys[place.value].id.Some? {
      DeletionKeepsOthers(keys, keys[place.value].id.value);
    }
  }

  // ----- provisioning twice without persisting the key -----

  lemma {:induction false} FirstMatchOfAppended(keys: seq<Record>, r: Record, name: Name)
    requires Matches(r, name)
    ensures FirstMatch(keys + [r], name)
         == if FirstMatch(keys, name).Some? then FirstMatch(keys, name) else Some(r)
  {
    if keys == [] {
      assert keys + [r] == [r];
    } else {
      FirstMatchOfAppended(keys[1..], r, name);
      assert (keys + [r])[1..] == keys[1..] + [r];
    }
  }

  /** The record of this name that a look-up finds before one that is appended now. */
  function InTheWay(keys: seq<Record>, name: Name, g: Replies): Option<Record> {
    match FirstMatch(keys, name)
    case None => None
    case Some(m) => FirstMatch(AfterDeletion(keys, m, g.deletes), name)
  }

  /** Does the next call, with the same gateway and no key at hand, return this key and change nothing? */
  predicate FoundAgain(keys: seq<Record>, name: Name, key: Key, g: Replies) {
    var (after, r) := Provision(keys, name, "", g);
    after == keys && r.Provisioned? && r.key == key && r.status == Reused
  }

  lemma {:induction false} FoundAgainIs(keys: seq<Record>, name: Name, key: Key, g: Replies)
    ensures FoundAgain(keys, name, key, g)
       <==> FirstMatch(keys, name).Some? && FirstMatch(keys, name).value.key == Some(key) && g.accepts(key)
  {
    assert Text.Strip("") == "";
  }

  /** The first call finds an accepted key by name. */
  predicate AcceptedMatch(keys: seq<Record>, name: Name, g: Replies) {
    FirstMatch(keys, name).Some? && g.accepts(FirstMatch(keys, name).value.key.value)
  }

  /** The first call would mint an accepted key, with no other record of the name left in front of it. */
  predicate AcceptedMint(keys: seq<Record>, name: Name, g: Replies) {
    && Minted(g) && g.accepts(g.minted.value.1)
    && (InTheWay(keys, name, g).None? || InTheWay(keys, name, g).value.key == Some(g.minted.value.1))
  }

  /**
   * Two calls without a persisted key give the same key, the second changing nothing, exactly when the key
   * found by name is accepted, or a key that is accepted can be minted and no other record of the name is
   * left in front of it: the rejected one deleted, and no further one behind that.
   */
  lemma SecondCallFindsKeyIff(keys: seq<Record>, name: Name, g: Replies)
    ensures var (after, r) := Provision(keys, name, "", g);
            && (r.Provisioned? && FoundAgain(after, name, r.key, g)
                <==> AcceptedMatch(keys, name, g) || AcceptedMint(keys, name, g))
  {
    var (after, r) := Provision(keys, name, "", g);
    assert Text.Strip("") == "";
    if r.Provisioned? {
      FoundAgainIs(after, name, r.key, g);
      if r.status != Reused {
        var m := FirstMatch(keys, name);
        var left := if m.None? then keys else AfterDeletion(keys, m.value, g.deletes);
        FirstMatchOfAppended(left, Record(r.id, name, true, Some(r.key)), name);
      }
    }
  }

  /** The same call again and again, the gateway minting these keys. */
  function ProvisionAgain(keys: seq<Record>, name: Name, g: Replies, minted: seq<(Option<Name>, Key)>): seq<Record>
    decreases |minted|
  {
    if minted == [] then keys
    else ProvisionAgain(Provision(keys, name, "", g.(minted := Some(minted[0]))).0, name, g, minted[1..])
  }

  /** While a rejected record cannot be deleted, every call mints one more key and none is found again. */
  lemma {:induction false} FailedDeletionPilesUp(keys: seq<Record>, name: Name, g: Replies,
                                                 minted: seq<(Option<Name>, Key)>)
    requires !g.deletes && FirstMatch(keys, name).Some? && !g.accepts(FirstMatch(keys, name).value.key.value)
    requires forall i :: 0 <= i < |minted| ==> minted[i].1.text != ""
    ensures |ProvisionAgain(keys, name, g, minted)| == |keys| + |minted|
    ensures FirstMatch(ProvisionAgain(keys, name, g, minted), name) == FirstMatch(keys, name)
    decreases |minted|
  {
    if minted != [] {
      assert Text.Strip("") == "";
      var (id, key) := minted[0];
      var record := Record(id, name, true, Some(key));
      assert Provision(keys, name, "", g.(minted := Some(minted[0]))).0 == keys + [record];
      FirstMatchOfAppended(keys, record, name);
      FailedDeletionPilesUp(keys + [record], name, g, minted[1..]);
    }
  }
}
