/** Grouping by a key in one pass over an insertion-ordered dict. */
module Grouping {
  import opened Seqs

  /** The elements with one key, in order. */
  function MembersBy<K(==), V>(keyOf: V -> K, s: seq<V>, key: K): seq<V>
    decreases |s|
  {
    if s == [] then [] else
      var front, last := s[..|s| - 1], s[|s| - 1];
      MembersBy(keyOf, front, key) + if keyOf(last) == key then [last] else []
  }

  /** The keys, in order of first appearance. */
  function KeysBy<K(==), V>(keyOf: V -> K, s: seq<V>): (keys: seq<K>)
    ensures Distinct(keys)
    decreases |s|
  {
    if s == [] then [] else
      var front, last := s[..|s| - 1], s[|s| - 1];
      KeysBy(keyOf, front) + if keyOf(last) in KeysBy(keyOf, front) then [] else [keyOf(last)]
  }

  lemma {:induction false} MembersBySnoc<K, V>(keyOf: V -> K, front: seq<V>, last: V, key: K)
    ensures MembersBy(keyOf, front + [last], key)
         == if keyOf(last) == key then MembersBy(keyOf, front, key) + [last] else MembersBy(keyOf, front, key)
  {
    TakeAll(front, last);
    NilLeft(MembersBy(keyOf, front, key));
  }

  lemma {:induction false} KeysBySnoc<K, V>(keyOf: V -> K, front: seq<V>, last: V)
    ensures KeysBy(keyOf, front + [last])
         == if keyOf(last) in KeysBy(keyOf, front) then KeysBy(keyOf, front) else KeysBy(keyOf, front) + [keyOf(last)]
  {
    TakeAll(front, last);
    NilLeft(KeysBy(keyOf, front));
  }

  function Entry<K, V>(grouped: map<K, seq<V>>, key: K): seq<V> {
    if key in grouped then grouped[key] else []
  }

  lemma EntryStep<K, V>(grouped: map<K, seq<V>>, key: K, v: V, k: K)
    ensures Entry(grouped[key := Entry(grouped, key) + [v]], k)
         == if k == key then Entry(grouped, k) + [v] else Entry(grouped, k)
  {
  }

  /** The dict with its keys in insertion order. */
  ghost predicate Grouped<K(!new), V>(keyOf: V -> K, s: seq<V>, keys: seq<K>, grouped: map<K, seq<V>>) {
    && keys == KeysBy(keyOf, s) && grouped.Keys == SetOf(keys)
    && forall key :: MembersBy(keyOf, s, key) == Entry(grouped, key)
  }

  lemma GroupedStep<K(!new), V>(keyOf: V -> K, front: seq<V>, last: V, keys: seq<K>, grouped: map<K, seq<V>>)
    requires Grouped(keyOf, front, keys, grouped)
    ensures var key := keyOf(last);
            Grouped(keyOf, front + [last], if key in keys then keys else keys + [key],
                    grouped[key := Entry(grouped, key) + [last]])
  {
    var key := keyOf(last);
    KeysBySnoc(keyOf, front, last);
    SetOfSnoc(keys, key);
    assert key in keys ==> SetOf(keys) + {key} == SetOf(keys);
    forall k ensures MembersBy(keyOf, front + [last], k) == Entry(grouped[key := Entry(grouped, key) + [last]], k) {
      MembersBySnoc(keyOf, front, last, k);
      EntryStep(grouped, key, last, k);
    }
  }

  lemma {:induction false} GroupedAt<K(!new), V>(keyOf: V -> K, s: seq<V>, i: nat, keys: seq<K>,
                                                 grouped: map<K, seq<V>>)
    requires i < |s| && Grouped(keyOf, s[..i], keys, grouped)
    ensures var key := keyOf(s[i]);
            Grouped(keyOf, s[..i + 1], if key in keys then keys else keys + [key],
                    grouped[key := Entry(grouped, key) + [s[i]]])
  {
    GroupedStep(keyOf, s[..i], s[i], keys, grouped);
    TakeMore(s, i);
  }

  /** Each element joins the list of its key, which is created when the key first comes up. */
  method GroupBy<K(==, !new), V>(keyOf: V -> K, s: seq<V>) returns (keys: seq<K>, grouped: map<K, seq<V>>)
    ensures Grouped(keyOf, s, keys, grouped)
  {
    keys, grouped := [], map[];
    for i := 0 to |s|
      invariant Grouped(keyOf, s[..i], keys, grouped)
    {
      var key := keyOf(s[i]);
      GroupedAt(keyOf, s, i, keys, grouped);
      keys := if key in keys then keys else keys + [key];
      grouped := grouped[key := Entry(grouped, key) + [s[i]]];
    }
    assert s[..|s|] == s;
  }
}
