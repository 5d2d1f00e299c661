/** Provisioning twice is provisioning once: nothing is registered again, whatever was there before. */
module GatewayProofs {
  import opened Seqs
  import opened Gateway

  /** The gateway only ever appends. */
  predicate Extends(g: Tables, h: Tables) {
    g.nodes <= h.nodes && g.connections <= h.connections
  }

  lemma {:induction false} FirstNodeStays(nodes: seq<Node>, more: seq<Node>, prefix: Name)
    ensures FirstNode(nodes + more, prefix)
         == if FirstNode(nodes, prefix).Some? then FirstNode(nodes, prefix) else FirstNode(more, prefix)
  {
    if nodes == [] {
      assert nodes + more == more;
    } else {
      FirstNodeStays(nodes[1..], more, prefix);
      assert (nodes + more)[1..] == nodes[1..] + more;
    }
  }

  lemma {:induction false} FirstConnectionStays(connections: seq<Connection>, more: seq<Connection>,
                                                nodeId: Name, name: Name, isLocal: bool)
    ensures FirstConnection(connections + more, nodeId, name, isLocal)
         == if FirstConnection(connections, nodeId, name, isLocal).Some?
            then FirstConnection(connections, nodeId, name, isLocal)
            else FirstConnection(more, nodeId, name, isLocal)
  {
    if connections == [] {
      assert connections + more == more;
    } else {
      FirstConnectionStays(connections[1..], more, nodeId, name, isLocal);
      assert (connections + more)[1..] == connections[1..] + more;
    }
  }

  /** The server is registered with these two ids: both records are the ones a look-up finds. */
  predicate Settled(g: Tables, s: Server, nodeId: Name, connectionId: Name) {
    && s.Server?
    && var node := FirstNode(g.nodes, s.prefix);
    && node.Some? && node.value.id == nodeId && Trimmed(node.value.url) == Trimmed(s.url)
    && var connection := FirstConnection(g.connections, nodeId, ConnectionName(s), IsLocal(s));
    && connection.Some? && connection.value.id == connectionId
  }

  lemma SettledStays(g: Tables, h: Tables, s: Server, nodeId: Name, connectionId: Name)
    requires Settled(g, s, nodeId, connectionId) && Extends(g, h)
    ensures Settled(h, s, nodeId, connectionId)
  {
    var moreNodes, moreConnections := h.nodes[|g.nodes|..], h.connections[|g.connections|..];
    assert h.nodes == g.nodes + moreNodes && h.connections == g.connections + moreConnections;
    FirstNodeStays(g.nodes, moreNodes, s.prefix);
    FirstConnectionStays(g.connections, moreConnections, nodeId, ConnectionName(s), IsLocal(s));
  }

  lemma {:induction false} EnsureNodeSettles(g: Tables, mint: Mint, name: Name, prefix: Name, url: Url)
    ensures var (h, r) := EnsureNode(g, mint, name, prefix, url);
            && Extends(g, h) && h.connections == g.connections
            && (r.Ensured? ==> FirstNode(h.nodes, prefix) == Some(r.record) && Trimmed(r.record.url) == Trimmed(url))
            && (r.Ensured? && !r.created ==> h == g)
  {
    if FirstNode(g.nodes, prefix).None? && mint(g.requests).Some? {
      var node := Node(mint(g.requests).value, name, prefix, Trimmed(url));
      FirstNodeStays(g.nodes, [node], prefix);
      TrimmedTwice(url);
    }
  }

  lemma {:induction false} EnsureConnectionSettles(g: Tables, mint: Mint, nodeId: Name, name: Name, isLocal: bool)
    ensures var (h, r) := EnsureConnection(g, mint, nodeId, name, isLocal);
            && Extends(g, h) && h.nodes == g.nodes
            && (r.Ensured? ==> FirstConnection(h.connections, nodeId, name, isLocal) == Some(r.record))
            && (r.Ensured? && !r.created ==> h == g)
  {
    if FirstConnection(g.connections, nodeId, name, isLocal).None? && mint(g.requests).Some? {
      FirstConnectionStays(g.connections, [Connection(mint(g.requests).value, nodeId, name, true)],
                           nodeId, name, isLocal);
    }
  }

  lemma {:induction false} RegisterSettles(g: Tables, mint: Mint, s: Server)
    ensures var (h, r) := RegisterServer(g, mint, s);
            && Extends(g, h)
            && (r.Some? ==> Settled(h, s, r.value.nodeId, r.value.connectionId))
  {
    if s.Server? {
      EnsureNodeSettles(g, mint, s.name, s.prefix, s.url);
      var (g1, node) := EnsureNode(g, mint, s.name, s.prefix, s.url);
      if node.Ensured? {
        EnsureConnectionSettles(g1, mint, node.record.id, ConnectionName(s), IsLocal(s));
      }
    }
  }

  /** A registered server is found again; nothing is sent to the gateway but look-ups. */
  lemma SettledIsIdle(g: Tables, mint: Mint, s: Server, nodeId: Name, connectionId: Name)
    requires Settled(g, s, nodeId, connectionId)
    ensures RegisterServer(g, mint, s)
         == (g, Some(Registered(s.name, s.prefix, Trimmed(s.url), nodeId, false, connectionId, false)))
  {
  }

  ghost predicate AllSettled(g: Tables, servers: seq<Server>, rs: seq<Registered>) {
    && |rs| == |servers|
    && forall i :: 0 <= i < |servers| ==> Settled(g, servers[i], rs[i].nodeId, rs[i].connectionId)
  }

  lemma {:induction false} RunSettles(g: Tables, mint: Mint, servers: seq<Server>)
    ensures var (h, rs) := RegisterAll(g, mint, servers);
            Extends(g, h) && (rs.Some? ==> AllSettled(h, servers, rs.value))
    decreases |servers|
  {
    if servers != [] {
      RegisterSettles(g, mint, servers[0]);
      var (g1, first) := RegisterServer(g, mint, servers[0]);
      if first.Some? {
        RunSettles(g1, mint, servers[1..]);
        var (h, rest) := RegisterAll(g1, mint, servers[1..]);
        if rest.Some? {
          SettledStays(g1, h, servers[0], first.value.nodeId, first.value.connectionId);
        }
      }
    }
  }

  /** What a second run reports: the same ids, and nothing created. */
  function Found(rs: seq<Registered>): (found: seq<Registered>)
    ensures |found| == |rs|
    ensures forall i :: 0 <= i < |rs| ==> found[i] == rs[i].(nodeCreated := false, connectionCreated := false)
  {
    if rs == [] then [] else [rs[0].(nodeCreated := false, connectionCreated := false)] + Found(rs[1..])
  }

  ghost predicate Describes(servers: seq<Server>, rs: seq<Registered>) {
    && |rs| == |servers|
    && forall i :: 0 <= i < |servers| ==>
         && servers[i].Server?
         && rs[i].name == servers[i].name && rs[i].prefix == servers[i].prefix && rs[i].url == Trimmed(servers[i].url)
  }

  lemma {:induction false} RunDescribes(g: Tables, mint: Mint, servers: seq<Server>)
    ensures var rs := RegisterAll(g, mint, servers).1;
            rs.Some? ==> Describes(servers, rs.value)
    decreases |servers|
  {
    if servers != [] {
      RunDescribes(RegisterServer(g, mint, servers[0]).0, mint, servers[1..]);
    }
  }

  lemma {:induction false} SettledRunIsIdle(g: Tables, mint: Mint, servers: seq<Server>, rs: seq<Registered>)
    requires AllSettled(g, servers, rs) && Describes(servers, rs)
    ensures RegisterAll(g, mint, servers) == (g, Some(Found(rs)))
    decreases |servers|
  {
    if servers != [] {
      SettledIsIdle(g, mint, servers[0], rs[0].nodeId, rs[0].connectionId);
      SettledRunIsIdle(g, mint, servers[1..], rs[1..]);
    }
  }

  /**
   * Idempotence: after a run that succeeded, a run over the same servers creates nothing, changes nothing
   * and reports the same ids, even when other records have been added in between.
   */
  lemma {:induction false} SecondRunCreatesNothing(g: Tables, mint: Mint, servers: seq<Server>, h: Tables, mint': Mint)
    requires RegisterAll(g, mint, servers).1.Some?
    requires Extends(RegisterAll(g, mint, servers).0, h)
    ensures RegisterAll(h, mint', servers) == (h, Some(Found(RegisterAll(g, mint, servers).1.value)))
  {
    RunSettles(g, mint, servers);
    RunDescribes(g, mint, servers);
    var (g1, rs) := RegisterAll(g, mint, servers);
    forall i | 0 <= i < |servers| ensures Settled(h, servers[i], rs.value[i].nodeId, rs.value[i].connectionId) {
      SettledStays(g1, h, servers[i], rs.value[i].nodeId, rs.value[i].connectionId);
    }
    SettledRunIsIdle(h, mint', servers, rs.value);
  }

  // ----- no duplicates, whether the runs succeed or fail -----

  ghost predicate NoDuplicates(g: Tables) {
    && (forall i, j :: 0 <= i < j < |g.nodes| ==> g.nodes[i].prefix != g.nodes[j].prefix)
    && (forall i, j :: 0 <= i < j < |g.connections| && g.connections[i].active && g.connections[j].active ==>
          g.connections[i].provider != g.connections[j].provider || g.connections[i].name != g.connections[j].name)
  }

  lemma {:induction false} NoneFound(nodes: seq<Node>, prefix: Name)
    requires FirstNode(nodes, prefix).None?
    ensures forall i :: 0 <= i < |nodes| ==> nodes[i].prefix != prefix
  {
    if nodes != [] {
      NoneFound(nodes[1..], prefix);
      assert forall i :: 1 <= i < |nodes| ==> nodes[i] == nodes[1..][i - 1];
    }
  }

  lemma {:induction false} NoneServes(connections: seq<Connection>, nodeId: Name, name: Name, isLocal: bool)
    requires FirstConnection(connections, nodeId, name, isLocal).None?
    ensures forall i :: 0 <= i < |connections| ==> !Serves(connections[i], nodeId, name, isLocal)
  {
    if connections != [] {
      NoneServes(connections[1..], nodeId, name, isLocal);
      assert forall i :: 1 <= i < |connections| ==> connections[i] == connections[1..][i - 1];
    }
  }

  lemma RegisterKeepsNoDuplicates(g: Tables, mint: Mint, s: Server)
    requires NoDuplicates(g)
    ensures NoDuplicates(RegisterServer(g, mint, s).0)
  {
    if s.Server? {
      var (g1, node) := EnsureNode(g, mint, s.name, s.prefix, s.url);
      if FirstNode(g.nodes, s.prefix).None? {
        NoneFound(g.nodes, s.prefix);
      }
      assert NoDuplicates(g1);
      if node.Ensured? && FirstConnection(g1.connections, node.record.id, ConnectionName(s), IsLocal(s)).None? {
        NoneServes(g1.connections, node.record.id, ConnectionName(s), IsLocal(s));
      }
    }
  }

  /** The gateway would accept a second node with a prefix; provisioning never asks for one. */
  lemma {:induction false} RunKeepsNoDuplicates(g: Tables, mint: Mint, servers: seq<Server>)
    requires NoDuplicates(g)
    ensures NoDuplicates(RegisterAll(g, mint, servers).0)
    decreases |servers|
  {
    if servers != [] {
      RegisterKeepsNoDuplicates(g, mint, servers[0]);
      RunKeepsNoDuplicates(RegisterServer(g, mint, servers[0]).0, mint, servers[1..]);
    }
  }

  // ----- when a run succeeds -----

  /** The URL a prefix stands for once these servers are registered: the earliest one wins. */
  function UrlOf(nodes: seq<Node>, servers: seq<Server>, prefix: Name): Option<Url> {
    match FirstNode(nodes, prefix)
    case Some(node) => Some(Trimmed(node.url))
    case None => FirstUrl(servers, prefix)
  }

  function FirstUrl(servers: seq<Server>, prefix: Name): Option<Url> {
    if servers == [] then None
    else if servers[0].Server? && servers[0].prefix == prefix then Some(Trimmed(servers[0].url))
    else FirstUrl(servers[1..], prefix)
  }

  /** Every server names a URL, and no prefix stands for two of them. */
  ghost predicate Compatible(nodes: seq<Node>, servers: seq<Server>) {
    forall i :: 0 <= i < |servers| ==>
      servers[i].Server? && UrlOf(nodes, servers, servers[i].prefix) == Some(Trimmed(servers[i].url))
  }

  ghost predicate NeverRefuses(mint: Mint) {
    forall n :: mint(n).Some?
  }

  /** Once the first server has its node, the others find what they would have found before. */
  lemma {:induction false} UrlOfStays(g: Tables, mint: Mint, servers: seq<Server>, prefix: Name)
    requires servers != [] && servers[0].Server?
    requires EnsureNode(g, mint, servers[0].name, servers[0].prefix, servers[0].url).1.Ensured?
    ensures UrlOf(EnsureNode(g, mint, servers[0].name, servers[0].prefix, servers[0].url).0.nodes, servers[1..], prefix)
         == UrlOf(g.nodes, servers, prefix)
  {
    var s := servers[0];
    var h := EnsureNode(g, mint, s.name, s.prefix, s.url).0;
    if FirstNode(g.nodes, s.prefix).None? {
      FirstNodeStays(g.nodes, h.nodes[|g.nodes|..], prefix);
      TrimmedTwice(s.url);
    }
  }

  /** A run succeeds exactly when no prefix would have to stand for two URLs. */
  lemma {:induction false} SucceedsIff(g: Tables, mint: Mint, servers: seq<Server>)
    requires NeverRefuses(mint)
    ensures RegisterAll(g, mint, servers).1.Some? <==> Compatible(g.nodes, servers)
    decreases |servers|
  {
    if servers != [] {
      var s, rest := servers[0], servers[1..];
      var (g1, first) := RegisterServer(g, mint, s);
      if first.None? {
        assert !Compatible(g.nodes, servers);
      } else {
        SucceedsIff(g1, mint, rest);
        EnsureConnectionSettles(EnsureNode(g, mint, s.name, s.prefix, s.url).0, mint,
                                first.value.nodeId, ConnectionName(s), IsLocal(s));
        forall prefix ensures UrlOf(g1.nodes, rest, prefix) == UrlOf(g.nodes, servers, prefix) {
          UrlOfStays(g, mint, servers, prefix);
        }
        assert servers[0].Server? && UrlOf(g.nodes, servers, s.prefix) == Some(Trimmed(s.url));
        assert forall i :: 0 <= i < |rest| ==> rest[i] == servers[i + 1];
        assert forall i :: 1 <= i < |servers| ==> servers[i] == rest[i - 1];
        assert Compatible(g1.nodes, rest) <==> Compatible(g.nodes, servers);
      }
    }
  }

  // ----- what one call does -----

  /** Trailing slashes are taken off, and nothing else. */
  lemma {:induction false} TrimmedIs(url: Url) returns (slashes: string)
    ensures url.text == Trimmed(url).text + slashes && forall i :: 0 <= i < |slashes| ==> slashes[i] == '/'
    ensures var s := Trimmed(url).text; s == "" || s[|s| - 1] != '/'
    decreases |url.text|
  {
    var s := url.text;
    slashes := "";
    if s != "" && s[|s| - 1] == '/' {
      slashes := TrimmedIs(Url(s[..|s| - 1]));
      slashes := slashes + "/";
    }
  }

  /** Where the first node with this prefix stands, if there is one. */
  ghost predicate NodeAt(nodes: seq<Node>, prefix: Name, place: Option<nat>) {
    var end := if place.Some? then place.value else |nodes|;
    && end <= |nodes| && (place.Some? ==> end < |nodes| && nodes[end].prefix == prefix)
    && forall i :: 0 <= i < end ==> nodes[i].prefix != prefix
  }

  lemma {:induction false} FirstNodeIs(nodes: seq<Node>, prefix: Name, place: Option<nat>)
    requires NodeAt(nodes, prefix, place)
    ensures FirstNode(nodes, prefix) == if place.Some? then Some(nodes[place.value]) else None
  {
    if nodes != [] && nodes[0].prefix != prefix {
      FirstNodeIs(nodes[1..], prefix, if place.Some? then Some(place.value - 1) else None);
    }
  }

  /** The first node with the prefix is taken if its URL is the wanted one; without one, one is asked for. */
  lemma {:induction false} EnsureNodeIs(g: Tables, mint: Mint, name: Name, prefix: Name, url: Url, place: Option<nat>)
    requires NodeAt(g.nodes, prefix, place)
    ensures var (h, r) := EnsureNode(g, mint, name, prefix, url);
            if place.Some? then
              h == g && r == if Trimmed(g.nodes[place.value].url) == Trimmed(url)
                             then Ensured(g.nodes[place.value], false) else AdminError
            else if mint(g.requests).None? then h == g.(requests := g.requests + 1) && r == AdminError
            else
              var node := Node(mint(g.requests).value, name, prefix, Trimmed(url));
              h == g.(nodes := g.nodes + [node], requests := g.requests + 1) && r == Ensured(node, true)
  {
    FirstNodeIs(g.nodes, prefix, place);
  }

  /** Where the first active connection of the node stands that will do: any, or the one of the name. */
  ghost predicate ConnectionAt(connections: seq<Connection>, nodeId: Name, name: Name, isLocal: bool,
                               place: Option<nat>) {
    var end := if place.Some? then place.value else |connections|;
    && end <= |connections|
    && (place.Some? ==> end < |connections| && connections[end].provider == nodeId && connections[end].active
                        && (connections[end].name == name || isLocal))
    && forall i :: 0 <= i < end ==>
         connections[i].provider != nodeId || !connections[i].active || (connections[i].name != name && !isLocal)
  }

  lemma {:induction false} FirstConnectionIs(connections: seq<Connection>, nodeId: Name, name: Name, isLocal: bool,
                                             place: Option<nat>)
    requires ConnectionAt(connections, nodeId, name, isLocal, place)
    ensures FirstConnection(connections, nodeId, name, isLocal)
         == if place.Some? then Some(connections[place.value]) else None
  {
    if connections != [] && place != Some(0) {
      FirstConnectionIs(connections[1..], nodeId, name, isLocal,
                        if place.Some? then Some(place.value - 1) else None);
    }
  }

  lemma {:induction false} EnsureConnectionIs(g: Tables, mint: Mint, nodeId: Name, name: Name, isLocal: bool,
                                              place: Option<nat>)
    requires ConnectionAt(g.connections, nodeId, name, isLocal, place)
    ensures var (h, r) := EnsureConnection(g, mint, nodeId, name, isLocal);
            if place.Some? then h == g && r == Ensured(g.connections[place.value], false)
            else if mint(g.requests).None? then h == g.(requests := g.requests + 1) && r == AdminError
            else
              var c := Connection(mint(g.requests).value, nodeId, name, true);
              h == g.(connections := g.connections + [c], requests := g.requests + 1) && r == Ensured(c, true)
  {
    FirstConnectionIs(g.connections, nodeId, name, isLocal, place);
  }

  /**
   * One entry: its node, then a connection of that node, named after the prefix and without a credential of its
   * own unless the entry says otherwise. The first step that fails ends it, and what was created before stays.
   */
  lemma RegisterServerIs(g: Tables, mint: Mint, name: Name, prefix: Name, url: Url, connectionName: Option<Name>,
                         apiKey: Option<string>)
    ensures var (h, r) := RegisterServer(g, mint, Server(name, prefix, url, connectionName, apiKey));
            var (g1, node) := EnsureNode(g, mint, name, prefix, url);
            if node.AdminError? then (h, r) == (g1, None) else
              var named := if connectionName.Some? then connectionName.value else Name(prefix.text + "-local");
              var isLocal := apiKey == None || apiKey == Some("local-no-auth-required");
              var (g2, connection) := EnsureConnection(g1, mint, node.record.id, named, isLocal);
              if connection.AdminError? then (h, r) == (g2, None) else
                h == g2 && r == Some(Registered(name, prefix, Trimmed(url), node.record.id, node.created,
                                                connection.record.id, connection.created))
  {
  }
}
