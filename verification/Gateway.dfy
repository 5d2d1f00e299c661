/**
 * Registering local model servers with the 9Router gateway: `ensure_provider_node`,
 * `ensure_provider_connection` and the server loop of `auto_provision` (app/llm/ninerouter.py), against a
 * gateway that lists its records in the order they were created and makes new connections active.
 */
module Gateway {
  import opened Seqs

  /** An id, a name or a node prefix. */
  datatype Name = Name(text: string)

  datatype Url = Url(text: string)

  datatype Node = Node(id: Name, name: Name, prefix: Name, url: Url)

  datatype Connection = Connection(id: Name, provider: Name, name: Name, active: bool)

  const PLACEHOLDER := "local-no-auth-required"

  /** An entry of `local_servers`; the last two keys may be missing. */
  datatype Server =
    | Server(name: Name, prefix: Name, url: Url, connectionName: Option<Name>, apiKey: Option<string>)
    | Incomplete

  /** The gateway's tables, and how many creation requests it has been sent. */
  datatype Tables = Tables(nodes: seq<Node>, connections: seq<Connection>, requests: nat)

  /** The id the gateway gives on its n-th creation request, or nothing when that request fails. */
  type Mint = nat -> Option<Name>

  datatype Ensured<T> = Ensured(record: T, created: bool) | AdminError

  /** `url.rstrip("/")` */
  function Trimmed(url: Url): Url
    decreases |url.text|
  {
    var s := url.text;
    if s != "" && s[|s| - 1] == '/' then Trimmed(Url(s[..|s| - 1])) else url
  }

  lemma {:induction false} TrimmedTwice(url: Url)
    ensures Trimmed(Trimmed(url)) == Trimmed(url)
    decreases |url.text|
  {
    var s := url.text;
    if s != "" && s[|s| - 1] == '/' {
      TrimmedTwice(Url(s[..|s| - 1]));
    }
  }

  // ----- nodes -----

  function FirstNode(nodes: seq<Node>, prefix: Name): Option<Node> {
    if nodes == [] then None
    else if nodes[0].prefix == prefix then Some(nodes[0])
    else FirstNode(nodes[1..], prefix)
  }

  function EnsureNode(g: Tables, mint: Mint, name: Name, prefix: Name, url: Url): (Tables, Ensured<Node>) {
    match FirstNode(g.nodes, prefix)
    case Some(node) =>
      (g, if Trimmed(node.url) == Trimmed(url) then Ensured(node, false) else AdminError)
    case None =>
      match mint(g.requests)
      case None => (g.(requests := g.requests + 1), AdminError)
      case Some(id) =>
        var node := Node(id, name, prefix, Trimmed(url));
        (g.(nodes := g.nodes + [node], requests := g.requests + 1), Ensured(node, true))
  }

  // ----- connections -----

  /** One local connection serves a node; a named credential needs its own. */
  predicate Serves(c: Connection, nodeId: Name, name: Name, isLocal: bool) {
    c.provider == nodeId && c.active && (isLocal || c.name == name)
  }

  function FirstConnection(connections: seq<Connection>, nodeId: Name, name: Name, isLocal: bool): Option<Connection> {
    if connections == [] then None
    else if Serves(connections[0], nodeId, name, isLocal) then Some(connections[0])
    else FirstConnection(connections[1..], nodeId, name, isLocal)
  }

  function EnsureConnection(g: Tables, mint: Mint, nodeId: Name, name: Name, isLocal: bool)
    : (Tables, Ensured<Connection>)
  {
    match FirstConnection(g.connections, nodeId, name, isLocal)
    case Some(c) => (g, Ensured(c, false))
    case None =>
      match mint(g.requests)
      case None => (g.(requests := g.requests + 1), AdminError)
      case Some(id) =>
        var c := Connection(id, nodeId, name, true);
        (g.(connections := g.connections + [c], requests := g.requests + 1), Ensured(c, true))
  }

  // ----- the server loop -----

  datatype Registered = Registered(name: Name, prefix: Name, url: Url, nodeId: Name, nodeCreated: bool,
                                   connectionId: Name, connectionCreated: bool)

  function ConnectionName(s: Server): Name
    requires s.Server?
  {
    match s.connectionName
    case Some(name) => name
    case None => Name(s.prefix.text + "-local")
  }

  predicate IsLocal(s: Server)
    requires s.Server?
  {
    s.apiKey.None? || s.apiKey.value == PLACEHOLDER
  }

  function RegisterServer(g: Tables, mint: Mint, s: Server): (Tables, Option<Registered>) {
    match s
    case Incomplete => (g, None)
    case Server(name, prefix, url, _, _) =>
      var (g1, node) := EnsureNode(g, mint, name, prefix, url);
      if node.AdminError? then (g1, None) else
        var (g2, connection) := EnsureConnection(g1, mint, node.record.id, ConnectionName(s), IsLocal(s));
        if connection.AdminError? then (g2, None) else
          (g2, Some(Registered(name, prefix, Trimmed(url), node.record.id, node.created,
                               connection.record.id, connection.created)))
  }

  /** The loop over the servers; the first failure is raised, and nothing is reported then. */
  function RegisterAll(g: Tables, mint: Mint, servers: seq<Server>): (Tables, Option<seq<Registered>>)
    decreases |servers|
  {
    if servers == [] then (g, Some([])) else
      var (g1, first) := RegisterServer(g, mint, servers[0]);
      if first.None? then (g1, None) else
        var (g2, rest) := RegisterAll(g1, mint, servers[1..]);
        (g2, if rest.None? then None else Some([first.value] + rest.value))
  }

  class Gateway {
    var nodes: seq<Node>
    var connections: seq<Connection>
    var requests: nat
    const mint: Mint

    constructor (mint: Mint)
      ensures Contents() == Tables([], [], 0) && this.mint == mint
    {
      nodes, connections, requests := [], [], 0;
      this.mint := mint;
    }

    ghost function Contents(): Tables
      reads this
    {
      Tables(nodes, connections, requests)
    }

    /** A creation request: the id of the new record, or None when the gateway refuses. */
    method Request() returns (id: Option<Name>)
      modifies this`requests
      ensures id == mint(old(requests)) && requests == old(requests) + 1
    {
      id := mint(requests);
      requests := requests + 1;
    }

    method EnsureProviderNode(name: Name, prefix: Name, url: Url) returns (r: Ensured<Node>)
      modifies this
      ensures (Contents(), r) == EnsureNode(old(Contents()), mint, name, prefix, url)
    {
      var wanted := Trimmed(url);
      var i := 0;
      while i < |nodes|
        invariant 0 <= i <= |nodes|
        invariant FirstNode(nodes[i..], prefix) == FirstNode(nodes, prefix)
      {
        if nodes[i].prefix == prefix {
          return if Trimmed(nodes[i].url) != wanted then AdminError else Ensured(nodes[i], false);
        }
        assert nodes[i..][1..] == nodes[i + 1..];
        i := i + 1;
      }
      var id := Request();
      if id.None? {
        return AdminError;
      }
      var node := Node(id.value, name, prefix, wanted);
      nodes := nodes + [node];
      r := Ensured(node, true);
    }

    method EnsureProviderConnection(nodeId: Name, name: Name, isLocal: bool) returns (r: Ensured<Connection>)
      modifies this
      ensures (Contents(), r) == EnsureConnection(old(Contents()), mint, nodeId, name, isLocal)
    {
      var i := 0;
      while i < |connections|
        invariant 0 <= i <= |connections|
        invariant FirstConnection(connections[i..], nodeId, name, isLocal)
          == FirstConnection(connections, nodeId, name, isLocal)
      {
        var c := connections[i];
        assert connections[i..][1..] == connections[i + 1..];
        i := i + 1;
        if c.provider != nodeId || !c.active {
          continue;
        }
        if isLocal || c.name == name {
          return Ensured(c, false);
        }
      }
      var id := Request();
      if id.None? {
        return AdminError;
      }
      var c := Connection(id.value, nodeId, name, true);
      connections := connections + [c];
      r := Ensured(c, true);
    }

    method RegisterServers(servers: seq<Server>) returns (registered: Option<seq<Registered>>)
      modifies this
      ensures (Contents(), registered) == RegisterAll(old(Contents()), mint, servers)
    {
      var done: seq<Registered> := [];
      ghost var whole := RegisterAll(old(Contents()), mint, servers);
      assert whole == Prepended(done, whole) by {
        assert whole.1.Some? ==> [] + whole.1.value == whole.1.value;
      }
      var i := 0;
      assert servers[0..] == servers;
      while i < |servers|
        invariant 0 <= i <= |servers|
        invariant whole == Prepended(done, RegisterAll(Contents(), mint, servers[i..]))
      {
        var s := servers[i];
        assert servers[i..][1..] == servers[i + 1..];
        if s.Incomplete? {
          return None;
        }
        var node := EnsureProviderNode(s.name, s.prefix, s.url);
        if node.AdminError? {
          return None;
        }
        var connection := EnsureProviderConnection(node.record.id, ConnectionName(s), IsLocal(s));
        if connection.AdminError? {
          return None;
        }
        var entry := Registered(s.name, s.prefix, Trimmed(s.url), node.record.id, node.created,
                                connection.record.id, connection.created);
        PrependedStep(done, entry, RegisterAll(Contents(), mint, servers[i + 1..]));
        done := done + [entry];
        i := i + 1;
      }
      assert done + [] == done;
      registered := Some(done);
    }
  }

  ghost function Prepended(done: seq<Registered>, run: (Tables, Option<seq<Registered>>))
    : (Tables, Option<seq<Registered>>)
  {
    (run.0, if run.1.None? then None else Some(done + run.1.value))
  }

  lemma {:induction false} PrependedStep(done: seq<Registered>, entry: Registered,
                                         run: (Tables, Option<seq<Registered>>))
    ensures Prepended(done + [entry], run)
         == Prepended(done, (run.0, if run.1.None? then None else Some([entry] + run.1.value)))
  {
    if run.1.Some? {
      assert done + [entry] + run.1.value == done + ([entry] + run.1.value);
    }
  }
}
