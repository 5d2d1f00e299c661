/** `sanitize` and the worklist `_collect_secrets` see the same secrets (app/computer/secrets.py, runtime.py). */
module Secrets {
  import opened Seqs
  import Text

  datatype Plaintext = Plaintext(text: string)

  /** A request parameter: a credential, a dictionary (keys with their values), a list, a tuple, or plain text. */
  datatype Value =
    | Secret(secretId: string, length: nat, plaintext: Plaintext)
    | Dict(keys: seq<string>, values: seq<Value>)
    | List(values: seq<Value>)
    | Tuple(values: seq<Value>)
    | Plain(text: string)

  function Describe(secretId: string, length: nat): string {
    "<secret:" + secretId + " len=" + Text.NatText(length) + ">"
  }

  function Sanitize(v: Value): Value {
    match v
    case Secret(id, length, _) => Plain(Describe(id, length))
    case Dict(keys, values) => Dict(keys, SanitizeAll(values))
    case List(values) => List(SanitizeAll(values))
    case Tuple(values) => Tuple(SanitizeAll(values))
    case Plain(_) => v
  }

  function SanitizeAll(vs: seq<Value>): (r: seq<Value>)
    ensures |r| == |vs| && forall i :: 0 <= i < |vs| ==> r[i] == Sanitize(vs[i])
  {
    if vs == [] then [] else [Sanitize(vs[0])] + SanitizeAll(vs[1..])
  }

  /** What a value contains directly. */
  function Children(v: Value): seq<Value> {
    match v
    case Dict(_, values) => values
    case List(values) => values
    case Tuple(values) => values
    case _ => []
  }

  // ----- places in a value -----

  /** The value at the end of a path of child positions. */
  function At(v: Value, path: seq<nat>): Option<Value>
    decreases |path|
  {
    if path == [] then Some(v)
    else if path[0] < |Children(v)| then At(Children(v)[path[0]], path[1..])
    else None
  }

  function Shallow(v: Value): Value {
    match v
    case Dict(keys, _) => Dict(keys, [])
    case List(_) => List([])
    case Tuple(_) => Tuple([])
    case _ => v
  }

  /** Sanitizing keeps the shape: at every place stands what stood there, or a secret's descriptor. */
  lemma {:induction false} SanitizeAt(v: Value, path: seq<nat>)
    ensures At(Sanitize(v), path).Some? <==> At(v, path).Some?
    ensures match At(v, path)
            case Some(Secret(id, length, _)) =>
              At(Sanitize(v), path) == Some(Plain("<secret:" + id + " len=" + Text.NatText(length) + ">"))
            case Some(w) => Shallow(At(Sanitize(v), path).value) == Shallow(w)
            case None => true
    decreases |path|
  {
    if path != [] && path[0] < |Children(v)| {
      SanitizeAt(Children(v)[path[0]], path[1..]);
      assert Children(Sanitize(v)) == SanitizeAll(Children(v));
    }
  }

  ghost predicate HasSecret(v: Value) {
    exists path :: At(v, path).Some? && At(v, path).value.Secret?
  }

  lemma {:induction false} NoSecretLeft(v: Value)
    ensures !HasSecret(Sanitize(v))
  {
    forall path | At(Sanitize(v), path).Some? ensures !At(Sanitize(v), path).value.Secret? {
      SanitizeAt(v, path);
    }
  }

  /** A value is changed exactly when there is a secret in it. */
  lemma {:induction false} UnchangedIffSecretFree(v: Value)
    ensures Sanitize(v) == v <==> !HasSecret(v)
  {
    NoSecretLeft(v);
    if !HasSecret(v) {
      SecretFreeIsKept(v);
    }
  }

  lemma {:induction false} SecretFreeIsKept(v: Value)
    requires !HasSecret(v)
    ensures Sanitize(v) == v
  {
    assert At(v, []) == Some(v);
    var vs := Children(v);
    forall i | 0 <= i < |vs| ensures Sanitize(vs[i]) == vs[i] {
      forall path | At(vs[i], path).Some? ensures !At(vs[i], path).value.Secret? {
        assert At(v, [i] + path) == At(vs[i], path) by {
          assert ([i] + path)[1..] == path;
        }
      }
      SecretFreeIsKept(vs[i]);
    }
    assert SanitizeAll(vs) == vs;
  }

  // ----- the worklist -----

  /** All plaintexts in a value, each as often as it occurs; an empty one is not collected. */
  function PlaintextsIn(v: Value): multiset<Plaintext> {
    match v
    case Secret(_, _, plaintext) => if plaintext.text != "" then multiset{plaintext} else multiset{}
    case Dict(_, values) => Plaintexts(values)
    case List(values) => Plaintexts(values)
    case Tuple(values) => Plaintexts(values)
    case Plain(_) => multiset{}
  }

  function Plaintexts(vs: seq<Value>): multiset<Plaintext> {
    if vs == [] then multiset{} else PlaintextsIn(vs[0]) + Plaintexts(vs[1..])
  }

  function Size(v: Value): nat {
    match v
    case Dict(_, values) => 1 + TotalSize(values)
    case List(values) => 1 + TotalSize(values)
    case Tuple(values) => 1 + TotalSize(values)
    case _ => 1
  }

  function TotalSize(vs: seq<Value>): nat {
    if vs == [] then 0 else Size(vs[0]) + TotalSize(vs[1..])
  }

  lemma {:induction false} StackConcat(a: seq<Value>, b: seq<Value>)
    ensures Plaintexts(a + b) == Plaintexts(a) + Plaintexts(b) && TotalSize(a + b) == TotalSize(a) + TotalSize(b)
    decreases |a|
  {
    if a == [] {
      NilLeft(b);
    } else {
      StackConcat(a[1..], b);
      ConsConcat(a, b);
      MultisetsAssociate(PlaintextsIn(a[0]), Plaintexts(a[1..]), Plaintexts(b));
    }
  }

  lemma MultisetsAssociate<T>(x: multiset<T>, y: multiset<T>, z: multiset<T>)
    ensures x + (y + z) == x + y + z
  {
  }

  /** What taking the last value off the stack removes. */
  lemma {:induction false} PopStep(stack: seq<Value>)
    requires stack != []
    ensures Plaintexts(stack) == Plaintexts(stack[..|stack| - 1]) + PlaintextsIn(stack[|stack| - 1])
    ensures TotalSize(stack) == TotalSize(stack[..|stack| - 1]) + Size(stack[|stack| - 1])
  {
    var rest, v := stack[..|stack| - 1], stack[|stack| - 1];
    assert stack == rest + [v];
    StackConcat(rest, [v]);
    assert [v][1..] == [];
  }

  /** What the item itself holds. */
  function Own(v: Value): seq<Plaintext> {
    if v.Secret? && v.plaintext.text != "" then [v.plaintext] else []
  }

  lemma OwnAndChildren(v: Value)
    ensures PlaintextsIn(v) == multiset(Own(v)) + Plaintexts(Children(v))
    ensures Size(v) == 1 + TotalSize(Children(v))
  {
  }

  /** Replacing the last item by its children takes out what it holds itself. */
  lemma {:induction false} ExpandStep(found: seq<Plaintext>, stack: seq<Value>)
    requires stack != []
    ensures var item, rest := stack[|stack| - 1], stack[..|stack| - 1];
            && multiset(found + Own(item)) + Plaintexts(rest + Children(item)) == multiset(found) + Plaintexts(stack)
            && TotalSize(rest + Children(item)) < TotalSize(stack)
  {
    var item, rest := stack[|stack| - 1], stack[..|stack| - 1];
    PopStep(stack);
    StackConcat(rest, Children(item));
    OwnAndChildren(item);
    MovePart(multiset(found), multiset(Own(item)), Plaintexts(rest), Plaintexts(Children(item)));
    assert multiset(found + Own(item)) == multiset(found) + multiset(Own(item));
  }

  lemma MovePart<T>(a: multiset<T>, b: multiset<T>, c: multiset<T>, d: multiset<T>)
    ensures a + b + (c + d) == a + (c + (b + d))
  {
  }

  method CollectSecrets(params: Value) returns (found: seq<Plaintext>)
    ensures multiset(found) == PlaintextsIn(params)
  {
    found := [];
    var stack := [params];
    assert [params][1..] == [];
    while stack != []
      invariant multiset(found) + Plaintexts(stack) == PlaintextsIn(params)
      decreases TotalSize(stack)
    {
      ExpandStep(found, stack);
      var item := stack[|stack| - 1];
      stack := stack[..|stack| - 1];
      NilLeft(stack);
      NilLeft(found);
      match item {
        case Secret(_, _, plaintext) =>
          if plaintext.text != "" {
            found := found + [plaintext];
          }
        case Dict(_, values) => stack := stack + values;
        case List(values) => stack := stack + values;
        case Tuple(values) => stack := stack + values;
        case Plain(_) =>
      }
    }
  }

  ghost predicate HoldsAt(v: Value, path: seq<nat>, p: Plaintext) {
    At(v, path).Some? && At(v, path).value.Secret? && At(v, path).value.plaintext == p
  }

  ghost predicate Holds(v: Value, p: Plaintext) {
    exists path :: HoldsAt(v, path, p)
  }

  lemma HoldsBelow(v: Value, p: Plaintext)
    ensures Holds(v, p) <==> (v.Secret? && v.plaintext == p) || exists w :: w in Children(v) && Holds(w, p)
  {
    var vs := Children(v);
    if v.Secret? && v.plaintext == p {
      assert HoldsAt(v, [], p);
    }
    if w :| w in vs && Holds(w, p) {
      var i :| 0 <= i < |vs| && vs[i] == w;
      var path :| HoldsAt(w, path, p);
      var here: nat := i;
      assert ([here] + path)[1..] == path;
      assert HoldsAt(v, [here] + path, p);
    }
    if Holds(v, p) {
      var path :| HoldsAt(v, path, p);
      if path != [] {
        assert HoldsAt(vs[path[0]], path[1..], p);
        assert vs[path[0]] in vs;
      }
    }
  }

  /** What is collected is what stands, not empty, in the secrets that `Sanitize` replaces. */
  lemma {:induction false} CollectedIff(v: Value, p: Plaintext)
    ensures p in PlaintextsIn(v) <==> p.text != "" && Holds(v, p)
    decreases v
  {
    HoldsBelow(v, p);
    match v
    case Secret(_, _, _) =>
    case Plain(_) =>
    case Dict(_, values) => CollectedBelowIff(values, p);
    case List(values) => CollectedBelowIff(values, p);
    case Tuple(values) => CollectedBelowIff(values, p);
  }

  lemma {:induction false} CollectedBelowIff(vs: seq<Value>, p: Plaintext)
    ensures p in Plaintexts(vs) <==> p.text != "" && exists w :: w in vs && Holds(w, p)
    decreases vs
  {
    if vs != [] {
      CollectedIff(vs[0], p);
      CollectedBelowIff(vs[1..], p);
      assert vs == [vs[0]] + vs[1..];
      assert forall w :: w in vs <==> w == vs[0] || w in vs[1..];
    }
  }

  // ----- each as often as it occurs -----

  /** The places below one child. */
  function Under(i: nat, paths: set<seq<nat>>): set<seq<nat>> {
    set q | q in paths :: [i] + q
  }

  /** All places of secrets with this plaintext. */
  function Places(v: Value, p: Plaintext): set<seq<nat>>
    decreases v
  {
    match v
    case Secret(_, _, plaintext) => if plaintext == p then {[]} else {}
    case Dict(_, values) => PlacesBelow(values, |values|, p)
    case List(values) => PlacesBelow(values, |values|, p)
    case Tuple(values) => PlacesBelow(values, |values|, p)
    case Plain(_) => {}
  }

  function PlacesBelow(vs: seq<Value>, n: nat, p: Plaintext): set<seq<nat>>
    requires n <= |vs|
    decreases vs, n
  {
    if n == 0 then {} else PlacesBelow(vs, n - 1, p) + Under(n - 1, Places(vs[n - 1], p))
  }

  lemma {:induction false} InUnder(i: nat, paths: set<seq<nat>>, path: seq<nat>)
    ensures path in Under(i, paths) <==> path != [] && path[0] == i && path[1..] in paths
  {
    if path in Under(i, paths) {
      var q :| q in paths && path == [i] + q;
      assert path[1..] == q;
    }
    if path != [] && path[0] == i {
      assert path == [i] + path[1..];
    }
  }

  lemma {:induction false} UnderSize(i: nat, paths: set<seq<nat>>)
    ensures |Under(i, paths)| == |paths|
  {
    if paths != {} {
      var q :| q in paths;
      UnderSize(i, paths - {q});
      assert Under(i, paths) == Under(i, paths - {q}) + {[i] + q};
      InUnder(i, paths - {q}, [i] + q);
      assert ([i] + q)[1..] == q;
    }
  }

  lemma {:induction false} InPlacesBelow(vs: seq<Value>, n: nat, p: Plaintext, path: seq<nat>)
    requires n <= |vs|
    ensures path in PlacesBelow(vs, n, p) <==> path != [] && path[0] < n && path[1..] in Places(vs[path[0]], p)
  {
    if n > 0 {
      InPlacesBelow(vs, n - 1, p, path);
      InUnder(n - 1, Places(vs[n - 1], p), path);
    }
  }

  /** The places are exactly those where a secret with the plaintext stands. */
  lemma {:induction false} PlacesAre(v: Value, p: Plaintext, path: seq<nat>)
    ensures path in Places(v, p) <==> HoldsAt(v, path, p)
    decreases |path|
  {
    var vs := Children(v);
    InPlacesBelow(vs, |vs|, p, path);
    if path != [] && path[0] < |vs| {
      PlacesAre(vs[path[0]], p, path[1..]);
    }
  }

  lemma PlaintextsSnoc(vs: seq<Value>, n: nat)
    requires n < |vs|
    ensures Plaintexts(vs[..n + 1]) == Plaintexts(vs[..n]) + PlaintextsIn(vs[n])
  {
    TakeMore(vs, n);
    StackConcat(vs[..n], [vs[n]]);
    assert [vs[n]][1..] == [];
  }

  lemma {:induction false} PlacesBelowCount(vs: seq<Value>, n: nat, p: Plaintext)
    requires n <= |vs| && p.text != ""
    ensures Plaintexts(vs[..n])[p] == |PlacesBelow(vs, n, p)|
    decreases vs, n
  {
    if n > 0 {
      PlacesBelowCount(vs, n - 1, p);
      CollectedOncePerPlace(vs[n - 1], p);
      PlaintextsSnoc(vs, n - 1);
      UnderSize(n - 1, Places(vs[n - 1], p));
      BelowIsApart(vs, n - 1, p);
    }
  }

  lemma {:induction false} BelowIsApart(vs: seq<Value>, n: nat, p: Plaintext)
    requires n < |vs|
    ensures PlacesBelow(vs, n, p) !! Under(n, Places(vs[n], p))
  {
    forall path | path in PlacesBelow(vs, n, p) ensures path !in Under(n, Places(vs[n], p)) {
      InPlacesBelow(vs, n, p, path);
      InUnder(n, Places(vs[n], p), path);
    }
  }

  /** A plaintext is collected once for each place where it stands in a secret. */
  lemma {:induction false} CollectedOncePerPlace(v: Value, p: Plaintext)
    requires p.text != ""
    ensures PlaintextsIn(v)[p] == |Places(v, p)|
    decreases v
  {
    var vs := Children(v);
    assert vs[..|vs|] == vs;
    match v
    case Secret(_, _, _) =>
    case Plain(_) =>
    case Dict(_, values) => PlacesBelowCount(values, |values|, p);
    case List(values) => PlacesBelowCount(values, |values|, p);
    case Tuple(values) => PlacesBelowCount(values, |values|, p);
  }
}
