/** The activation table: an SQL table whose flags implement a stack of versions. */
module Activations {
  import opened Seqs
  import opened Proposals

  datatype Activation = Activation(
    version: nat,
    proposalId: ProposalId,
    previous: Option<nat>,
    actor: string,
    active: bool,
    rolledBack: bool)

  // ----- the queries -----

  /** The query of `current`: the active row with the highest version. */
  function Current(rows: seq<Activation>): (r: Option<Activation>)
    ensures r.Some? ==> r.value in rows && r.value.active
    ensures r.Some? ==> forall a :: a in rows && a.active ==> a.version <= r.value.version
    ensures r.None? ==> forall a :: a in rows ==> !a.active
  {
    if rows == [] then None else
      var front, last := rows[..|rows| - 1], rows[|rows| - 1];
      var best := Current(front);
      assert rows == front + [last];
      if last.active && (best.None? || best.value.version <= last.version) then Some(last) else best
  }

  /** `MAX(version)`, with `or 0`. */
  function Top(rows: seq<Activation>): (m: nat)
    ensures forall a :: a in rows ==> a.version <= m
  {
    if rows == [] then 0 else
      var front, last := rows[..|rows| - 1], rows[|rows| - 1];
      var m := Top(front);
      assert rows == front + [last];
      if last.version > m then last.version else m
  }

  /** The query of `get_version`. */
  function AtVersion(rows: seq<Activation>, version: nat): (r: Option<Activation>)
    ensures r.Some? ==> r.value in rows && r.value.version == version
    ensures r.None? ==> forall a :: a in rows ==> a.version != version
  {
    if rows == [] then None
    else if rows[0].version == version then Some(rows[0])
    else
      assert rows == [rows[0]] + rows[1..];
      AtVersion(rows[1..], version)
  }

  /** The update that sets or clears the active flag of one version. */
  function SetActive(rows: seq<Activation>, version: nat, active: bool): (r: seq<Activation>)
    ensures |r| == |rows|
    ensures forall i :: 0 <= i < |rows| ==>
      r[i] == if rows[i].version == version then rows[i].(active := active) else rows[i]
  {
    seq(|rows|, i requires 0 <= i < |rows| =>
      if rows[i].version == version then rows[i].(active := active) else rows[i])
  }

  /** The update that rolls one version back. */
  function Retire(rows: seq<Activation>, version: nat): (r: seq<Activation>)
    ensures |r| == |rows|
    ensures forall i :: 0 <= i < |rows| ==>
      r[i] == if rows[i].version == version then rows[i].(active := false, rolledBack := true) else rows[i]
  {
    seq(|rows|, i requires 0 <= i < |rows| =>
      if rows[i].version == version then rows[i].(active := false, rolledBack := true) else rows[i])
  }

  /** The transaction of `activate`. */
  function Push(rows: seq<Activation>, id: ProposalId, actor: string): seq<Activation> {
    var current := Current(rows);
    var previous := if current.Some? then Some(current.value.version) else None;
    var demoted := if current.Some? then SetActive(rows, current.value.version, false) else rows;
    demoted + [Activation(Top(rows) + 1, id, previous, actor, true, false)]
  }

  /** The transaction of `rollback`, given the row `Current` selected. */
  function Pop(rows: seq<Activation>, current: Activation): seq<Activation> {
    var retired := Retire(rows, current.version);
    if current.previous.Some? then SetActive(retired, current.previous.value, true) else retired
  }

  // ----- the stack behind the flags -----

  /** Versions never rolled back, oldest first. */
  function Live(rows: seq<Activation>): seq<nat> {
    if rows == [] then [] else
      var front, last := rows[..|rows| - 1], rows[|rows| - 1];
      Live(front) + if last.rolledBack then [] else [last.version]
  }

  /** Versions are 1..n in insertion order. */
  ghost predicate Numbered(rows: seq<Activation>) {
    forall i :: 0 <= i < |rows| ==> rows[i].version == i + 1
  }

  /** `live` lists the rows not rolled back; its last entry is the only active row, and each entry's
      row records the entry below it. */
  ghost predicate Stacked(rows: seq<Activation>, live: seq<nat>) {
    && (forall i :: 0 <= i < |rows| ==> (rows[i].active <==> IsTop(live, i + 1)))
    && (forall k :: 0 <= k < |live| ==> 1 <= live[k] <= |rows| && !rows[live[k] - 1].rolledBack)
    && (forall j, k :: 0 <= j < k < |live| ==> live[j] < live[k])
    && (forall k {:trigger Below(live, k)} :: 0 <= k < |live| ==> rows[live[k] - 1].previous == Below(live, k))
  }

  ghost predicate StackOk(rows: seq<Activation>) {
    Numbered(rows) && Stacked(rows, Live(rows))
  }

  predicate IsTop(stack: seq<nat>, version: nat) {
    stack != [] && stack[|stack| - 1] == version
  }

  function Below(stack: seq<nat>, k: nat): Option<nat>
    requires k < |stack|
  {
    if k == 0 then None else Some(stack[k - 1])
  }

  /** The live versions are the versions of the rows not rolled back, in increasing order. */
  lemma {:induction false} LiveMembers(rows: seq<Activation>)
    requires Numbered(rows)
    ensures forall v :: v in Live(rows) <==> 1 <= v <= |rows| && !rows[v - 1].rolledBack
    ensures forall j, k :: 0 <= j < k < |Live(rows)| ==> Live(rows)[j] < Live(rows)[k]
  {
    if rows != [] {
      var front := rows[..|rows| - 1];
      LiveMembers(front);
      assert forall k :: 0 <= k < |Live(front)| ==> Live(front)[k] in Live(front);
    }
  }

  lemma {:induction false} LiveIgnoresActive(rows: seq<Activation>, rows': seq<Activation>)
    requires |rows| == |rows'|
    requires forall i :: 0 <= i < |rows| ==>
      rows'[i].version == rows[i].version && rows'[i].rolledBack == rows[i].rolledBack
    ensures Live(rows') == Live(rows)
  {
    if rows != [] {
      LiveIgnoresActive(rows[..|rows| - 1], rows'[..|rows| - 1]);
    }
  }

  /** Retiring the newest live version takes it off the end. */
  lemma {:induction false} LiveAfterRetire(rows: seq<Activation>, rows': seq<Activation>, version: nat)
    requires |rows| == |rows'| && Numbered(rows) && Numbered(rows') && IsTop(Live(rows), version)
    requires forall i :: 0 <= i < |rows| ==> rows'[i].rolledBack == (rows[i].rolledBack || rows[i].version == version)
    ensures Live(rows') == Live(rows)[..|Live(rows)| - 1]
  {
    var n := |rows| - 1;
    var front, front' := rows[..n], rows'[..n];
    if rows[n].rolledBack {
      LiveMembers(rows);
      assert version in Live(rows);
      assert version != n + 1;
      LiveAfterRetire(front, front', version);
    } else {
      LiveIgnoresActive(front, front');
    }
  }

  /** The selected row is the top of the stack. */
  lemma {:induction false} CurrentIsTop(rows: seq<Activation>, live: seq<nat>)
    requires Numbered(rows) && Stacked(rows, live)
    ensures live == [] ==> Current(rows).None?
    ensures live != [] ==>
      && Current(rows) == Some(rows[live[|live| - 1] - 1])
      && Current(rows).value.version == live[|live| - 1]
      && Current(rows).value.previous == Below(live, |live| - 1)
  {
    if live != [] {
      var v := live[|live| - 1];
      assert rows[v - 1].active && rows[v - 1] in rows;
      assert rows[v - 1].previous == Below(live, |live| - 1);
    }
    if Current(rows).Some? {
      var i := IndexOf(rows, Current(rows).value);
      assert rows[i].active <==> IsTop(live, i + 1);
    }
  }

  lemma {:induction false} TopIsLength(rows: seq<Activation>)
    requires Numbered(rows)
    ensures Top(rows) == |rows|
  {
    if rows != [] {
      TopIsLength(rows[..|rows| - 1]);
    }
  }

  /** Row by row, what `Push` leaves. */
  lemma PushRows(rows: seq<Activation>, live: seq<nat>, id: ProposalId, actor: string)
    requires Numbered(rows) && Stacked(rows, live)
    ensures
      var pushed, n := Push(rows, id, actor), |rows|;
      && |pushed| == n + 1
      && (forall i :: 0 <= i < n ==> pushed[i] == rows[i].(active := false))
      && pushed[n] == Activation(n + 1, id, if live == [] then None else Some(live[|live| - 1]), actor, true, false)
  {
    TopIsLength(rows);
    CurrentIsTop(rows, live);
  }

  lemma PushStacks(rows: seq<Activation>, live: seq<nat>, pushed: seq<Activation>)
    requires Stacked(rows, live) && |pushed| == |rows| + 1
    requires forall i :: 0 <= i < |rows| ==> pushed[i] == rows[i].(active := false)
    requires pushed[|rows|].active && !pushed[|rows|].rolledBack
    requires pushed[|rows|].previous == if live == [] then None else Some(live[|live| - 1])
    ensures Stacked(pushed, live + [|rows| + 1])
  {
    var n, taller := |rows|, live + [|rows| + 1];
    forall i | 0 <= i < |pushed| ensures pushed[i].active <==> IsTop(taller, i + 1) {
      assert IsTop(taller, i + 1) <==> i == n;
    }
    forall k {:trigger Below(taller, k)} | 0 <= k < |taller|
      ensures pushed[taller[k] - 1].previous == Below(taller, k)
    {
      if k < |live| {
        assert taller[k] == live[k] && Below(taller, k) == Below(live, k);
      }
    }
  }

  /** Activation pushes a version never used before. */
  lemma {:induction false} PushPushes(rows: seq<Activation>, id: ProposalId, actor: string)
    requires StackOk(rows)
    ensures StackOk(Push(rows, id, actor))
    ensures Live(Push(rows, id, actor)) == Live(rows) + [|rows| + 1]
  {
    var pushed := Push(rows, id, actor);
    PushRows(rows, Live(rows), id, actor);
    PushStacks(rows, Live(rows), pushed);
    LiveIgnoresActive(rows, pushed[..|rows|]);
    assert pushed[..|pushed| - 1] == pushed[..|rows|];
  }

  /** Row by row, what `Pop` leaves. */
  lemma {:induction false} PopRows(rows: seq<Activation>, live: seq<nat>)
    requires Numbered(rows) && Stacked(rows, live) && live != [] && Current(rows).Some?
    ensures
      var popped, v := Pop(rows, Current(rows).value), live[|live| - 1];
      && |popped| == |rows|
      && forall i :: 0 <= i < |rows| ==>
           popped[i] == rows[i].(active := IsTop(live[..|live| - 1], i + 1),
                                 rolledBack := rows[i].rolledBack || i + 1 == v)
  {
    CurrentIsTop(rows, live);
    var popped, v, lower := Pop(rows, Current(rows).value), live[|live| - 1], live[..|live| - 1];
    forall i | 0 <= i < |rows|
      ensures popped[i] == rows[i].(active := IsTop(lower, i + 1), rolledBack := rows[i].rolledBack || i + 1 == v)
    {
      assert rows[i].active <==> i + 1 == v;
      assert IsTop(lower, i + 1) <==> Below(live, |live| - 1) == Some(i + 1);
    }
  }

  lemma PopStacks(rows: seq<Activation>, live: seq<nat>, popped: seq<Activation>)
    requires Stacked(rows, live) && live != [] && |popped| == |rows|
    requires forall i :: 0 <= i < |rows| ==>
      popped[i] == rows[i].(active := IsTop(live[..|live| - 1], i + 1),
                            rolledBack := rows[i].rolledBack || i + 1 == live[|live| - 1])
    ensures Stacked(popped, live[..|live| - 1])
  {
    var lower := live[..|live| - 1];
    forall k {:trigger Below(lower, k)} | 0 <= k < |lower|
      ensures popped[lower[k] - 1].previous == Below(lower, k)
    {
      assert lower[k] == live[k] < live[|live| - 1] && Below(lower, k) == Below(live, k);
    }
  }

  lemma {:induction false} PopLive(rows: seq<Activation>, popped: seq<Activation>)
    requires Numbered(rows) && Live(rows) != [] && |popped| == |rows|
    requires forall i :: 0 <= i < |rows| ==>
      && popped[i].version == rows[i].version
      && popped[i].rolledBack == (rows[i].rolledBack || i + 1 == Live(rows)[|Live(rows)| - 1])
    ensures Numbered(popped) && Live(popped) == Live(rows)[..|Live(rows)| - 1]
  {
    LiveAfterRetire(rows, popped, Live(rows)[|Live(rows)| - 1]);
  }

  /** Rollback pops: the version below becomes the active one again. */
  lemma {:induction false} PopPops(rows: seq<Activation>)
    requires StackOk(rows) && Current(rows).Some?
    ensures Live(rows) != [] && StackOk(Pop(rows, Current(rows).value))
    ensures Live(Pop(rows, Current(rows).value)) == Live(rows)[..|Live(rows)| - 1]
  {
    var popped := Pop(rows, Current(rows).value);
    assert Live(rows) != [] by {
      CurrentIsTop(rows, Live(rows));
    }
    PopRows(rows, Live(rows));
    PopLive(rows, popped);
    PopStacks(rows, Live(rows), popped);
  }

  // ----- the previous_version chain -----

  /** From a version down along `previous_version`. */
  function Ancestors(rows: seq<Activation>, v: nat): seq<nat>
    decreases v
  {
    if v == 0 || v > |rows| then [] else
      [v] + match rows[v - 1].previous
            case None => []
            case Some(p) => if p < v then Ancestors(rows, p) else []
  }

  function Reverse(s: seq<nat>): seq<nat> {
    if s == [] then [] else [s[|s| - 1]] + Reverse(s[..|s| - 1])
  }

  lemma {:induction false} ChainDown(rows: seq<Activation>, live: seq<nat>, k: nat)
    requires Stacked(rows, live) && k < |live|
    ensures Ancestors(rows, live[k]) == Reverse(live[..k + 1])
  {
    assert live[..k + 1][..k] == live[..k];
    assert rows[live[k] - 1].previous == Below(live, k);
    if k > 0 {
      ChainDown(rows, live, k - 1);
    }
  }

  /** The rows never rolled back are exactly the `previous_version` chain from the active row. */
  lemma {:induction false} ActiveChain(rows: seq<Activation>)
    requires StackOk(rows) && Current(rows).Some?
    ensures Ancestors(rows, Current(rows).value.version) == Reverse(Live(rows))
    ensures forall v :: v in Live(rows) <==> 1 <= v <= |rows| && !rows[v - 1].rolledBack
  {
    CurrentIsTop(rows, Live(rows));
    ChainDown(rows, Live(rows), |Live(rows)| - 1);
    LiveMembers(rows);
    assert Live(rows)[..|Live(rows)|] == Live(rows);
  }
}
