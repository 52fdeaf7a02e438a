/**
 * Network topology for the generated testnet (prepare_workload/node_config.py):
 * the node set and symmetric peer lists of an edge list, the full-mesh default
 * network with padded names, and the split of node configurations into
 * validators and peers.
 */
module NodeConfig {
  import opened Wrappers
  import opened Seqs
  import opened Order
  import opened Text
  import opened Formatting

  /** One `[u, v]` entry of the `edges` list of a network file. */
  type Edge = (string, string)

  /** The endpoints of the edges in order, as `nodes.extend((u, v))` collects them. */
  function Endpoints(edges: seq<Edge>): (r: seq<string>)
    ensures |r| == 2 * |edges|
  {
    if |edges| == 0 then []
    else Endpoints(edges[..|edges| - 1]) + [edges[|edges| - 1].0, edges[|edges| - 1].1]
  }

  /** Both ends of every edge are among the endpoints. */
  lemma {:induction false} EdgeEndpoints(edges: seq<Edge>, i: nat)
    requires i < |edges|
    ensures edges[i].0 in Endpoints(edges) && edges[i].1 in Endpoints(edges)
  {
    var k := |edges| - 1;
    if i < k {
      assert edges[..k][i] == edges[i];
      EdgeEndpoints(edges[..k], i);
    }
  }

  /** The loop `for u, v in edges: nodes.extend((u, v))` that both `get_nodes` and `get_peers` run. */
  method CollectEndpoints(edges: seq<Edge>) returns (nodes: seq<string>)
    ensures nodes == Endpoints(edges)
  {
    nodes := [];
    for i := 0 to |edges|
      invariant nodes == Endpoints(edges[..i])
    {
      assert edges[..i + 1][..i] == edges[..i];
      var (u, v) := edges[i];
      nodes := nodes + [u, v];
    }
    assert edges[..|edges|] == edges;
  }

  /**
   * `get_nodes`: every endpoint of every edge, sorted, without duplicates
   * (`sorted(set(nodes))`).
   */
  method GetNodes(edges: seq<Edge>) returns (r: seq<string>)
    ensures StrictlySorted(r)
    ensures forall x :: x in r <==> x in Endpoints(edges)
  {
    var nodes := CollectEndpoints(edges);
    r := Sort(Distinct(nodes));
    SortProperties(Distinct(nodes));
    PermutationNoDuplicates(Distinct(nodes), r);
    SortedDistinctIsStrict(r);
    DistinctSameElements(nodes);
    assert forall x :: x in r <==> x in multiset(Distinct(nodes));
  }

  /**
   * What the edges before the last one give to node `n`'s list: for each edge
   * `(u, v)`, `v` when `n == u`, then `u` when `n == v` (both, for a self-loop).
   */
  function Adjacent(edges: seq<Edge>, n: string): seq<string> {
    if |edges| == 0 then []
    else
      var (u, v) := edges[|edges| - 1];
      Adjacent(edges[..|edges| - 1], n) + (if u == n then [v] else []) + (if v == n then [u] else [])
  }

  /** `s.remove(x)`: drop the first occurrence of `x`, if there is one. */
  function RemoveFirst(s: seq<string>, x: string): (r: seq<string>)
    ensures multiset(r) == multiset(s) - multiset{x}
    ensures x !in s ==> r == s
  {
    if |s| == 0 then []
    else if s[0] == x then (assert s == [s[0]] + s[1..]; s[1..])
    else (assert s == [s[0]] + s[1..]; [s[0]] + RemoveFirst(s[1..], x))
  }

  /** The final peer list of `n`: its adjacency list with one self-reference removed. */
  function PeerList(edges: seq<Edge>, n: string): seq<string> {
    RemoveFirst(Adjacent(edges, n), n)
  }

  /**
   * The second loop of `get_peers`, from the table `{n: [] for n in nodes}`:
   * each edge `(u, v)` appends `v` to `u`'s list and then `u` to `v`'s.
   */
  method AppendEdges(edges: seq<Edge>, nodes: seq<string>) returns (peers: map<string, seq<string>>)
    requires nodes == Endpoints(edges)
    ensures forall n :: n in peers <==> n in nodes
    ensures forall n :: n in peers ==> peers[n] == Adjacent(edges, n)
  {
    peers := map n | n in nodes :: [];
    for i := 0 to |edges|
      invariant forall n :: n in peers <==> n in nodes
      invariant forall n :: n in peers ==> peers[n] == Adjacent(edges[..i], n)
    {
      var (u, v) := edges[i];
      EdgeEndpoints(edges, i);
      if u !in peers {
        peers := peers[u := []];
      }
      if v !in peers {
        peers := peers[v := []];
      }
      ghost var before := peers;
      peers := peers[u := peers[u] + [v]];
      peers := peers[v := peers[v] + [u]];
      forall n | n in peers
        ensures peers[n] == before[n] + (if u == n then [v] else []) + (if v == n then [u] else [])
      {
        if n == u && n == v {
        } else if n == u {
        } else if n == v {
        }
      }
      assert edges[..i + 1][..i] == edges[..i];
    }
    assert edges[..|edges|] == edges;
  }

  /** The last loop of `get_peers`: each key in order drops one occurrence of itself from its own list. */
  method RemoveSelfReferences(keys: seq<string>, adjacent: map<string, seq<string>>) returns (peers: map<string, seq<string>>)
    requires NoDuplicates(keys)
    requires forall n :: n in keys <==> n in adjacent
    ensures peers.Keys == adjacent.Keys
    ensures forall n :: n in peers ==> peers[n] == RemoveFirst(adjacent[n], n)
  {
    peers := adjacent;
    for j := 0 to |keys|
      invariant peers.Keys == adjacent.Keys
      invariant forall k :: 0 <= k < j ==> peers[keys[k]] == RemoveFirst(adjacent[keys[k]], keys[k])
      invariant forall k :: j <= k < |keys| ==> peers[keys[k]] == adjacent[keys[k]]
    {
      var n := keys[j];
      if n in peers[n] {
        peers := peers[n := RemoveFirst(peers[n], n)];
      }
    }
    forall n | n in peers ensures peers[n] == RemoveFirst(adjacent[n], n) {
      var k :| 0 <= k < |keys| && keys[k] == n;
    }
  }

  /**
   * `get_peers`: the keys are the endpoints in first-occurrence order, and each
   * node's list is `PeerList`.
   */
  method GetPeers(edges: seq<Edge>) returns (keys: seq<string>, peers: map<string, seq<string>>)
    ensures keys == Distinct(Endpoints(edges))
    ensures forall n :: n in peers <==> n in Endpoints(edges)
    ensures forall n :: n in peers ==> peers[n] == PeerList(edges, n)
  {
    var nodes := CollectEndpoints(edges);
    keys := Distinct(nodes);
    var adjacent := AppendEdges(edges, nodes);
    DistinctSameElements(nodes);
    peers := RemoveSelfReferences(keys, adjacent);
  }

  // ---------------------------------------------------------------------------
  // Properties of the peer lists

  /** The number of edges joining `u` and `v`, in either direction. */
  function EdgeCount(edges: seq<Edge>, u: string, v: string): nat {
    if |edges| == 0 then 0
    else
      var e := edges[|edges| - 1];
      EdgeCount(edges[..|edges| - 1], u, v) + (if e == (u, v) || e == (v, u) then 1 else 0)
  }

  /** The number of self-loop edges `(n, n)`. */
  function SelfLoops(edges: seq<Edge>, n: string): nat {
    if |edges| == 0 then 0
    else SelfLoops(edges[..|edges| - 1], n) + (if edges[|edges| - 1] == (n, n) then 1 else 0)
  }

  /** For `u != v`, `v` occurs in `u`'s adjacency list once per edge between them. */
  lemma {:induction false} AdjacentCount(edges: seq<Edge>, u: string, v: string)
    requires u != v
    ensures multiset(Adjacent(edges, u))[v] == EdgeCount(edges, u, v)
  {
    if |edges| > 0 {
      AdjacentCount(edges[..|edges| - 1], u, v);
    }
  }

  /** A node occurs in its own adjacency list twice per self-loop. */
  lemma {:induction false} AdjacentSelfCount(edges: seq<Edge>, n: string)
    ensures multiset(Adjacent(edges, n))[n] == 2 * SelfLoops(edges, n)
  {
    if |edges| > 0 {
      AdjacentSelfCount(edges[..|edges| - 1], n);
    }
  }

  lemma {:induction false} EdgeCountSymmetric(edges: seq<Edge>, u: string, v: string)
    ensures EdgeCount(edges, u, v) == EdgeCount(edges, v, u)
  {
    if |edges| > 0 {
      EdgeCountSymmetric(edges[..|edges| - 1], u, v);
    }
  }

  /**
   * Peer lists are symmetric with matching multiplicity: for `u != v`, `v`
   * occurs in `u`'s list as often as `u` occurs in `v`'s, once per edge between them.
   */
  lemma PeersSymmetric(edges: seq<Edge>, u: string, v: string)
    requires u != v
    ensures multiset(PeerList(edges, u))[v] == multiset(PeerList(edges, v))[u] == EdgeCount(edges, u, v)
  {
    AdjacentCount(edges, u, v);
    AdjacentCount(edges, v, u);
    EdgeCountSymmetric(edges, u, v);
  }

  /**
   * The clean-up removes one self-reference: with no self-loop a node does not
   * list itself, and with `k >= 1` self-loops it lists itself `2k - 1` times.
   */
  lemma SelfReferences(edges: seq<Edge>, n: string)
    ensures multiset(PeerList(edges, n))[n] == if SelfLoops(edges, n) == 0 then 0 else 2 * SelfLoops(edges, n) - 1
    ensures SelfLoops(edges, n) == 0 ==> n !in PeerList(edges, n)
    ensures SelfLoops(edges, n) == 1 ==> multiset(PeerList(edges, n))[n] == 1
  {
    AdjacentSelfCount(edges, n);
  }

  // ---------------------------------------------------------------------------
  // Node configurations

  /** The `network` settings that name and count the default nodes. */
  datatype NetworkSettings = NetworkSettings(validatorName: string, peerName: string,
                                             numValidators: int, numPeers: int)

  /** A parsed network file: its `edges` and `private_peers` entries, when present. */
  datatype NetworkSpec = NetworkSpec(edges: Option<seq<Edge>>, privatePeers: Option<seq<string>>)

  /** Where `get_node_configs` raises: no `edges` key, or an empty edge list leaving `peers` unbound. */
  datatype ConfigError = MissingEdges | PeersUnbound

  datatype NodeCfg = NodeCfg(name: string, peers: seq<string>, peerPrivate: string, isValidator: bool)

  datatype NodeConfigs = NodeConfigs(validators: seq<NodeCfg>, peers: seq<NodeCfg>)

  /** The node names in dict order, each node's peer list, and the private peers. */
  datatype Topology = Topology(keys: seq<string>, lists: map<string, seq<string>>, privatePeers: seq<string>)

  /** `[f"{validator_name}{pad(i, n_v)}" for i in range(n_v)]`. */
  function ValidatorNames(net: NetworkSettings): (r: seq<string>)
    ensures |r| == if net.numValidators > 0 then net.numValidators else 0
    ensures forall i :: 0 <= i < |r| ==> r[i] == net.validatorName + Pad(i, net.numValidators)
  {
    var n := if net.numValidators > 0 then net.numValidators else 0;
    seq(n, i => net.validatorName + Pad(i, net.numValidators))
  }

  /** Several peers get padded numbers; otherwise (one peer, or none asked for) a single `peer_name`. */
  function PeerNames(net: NetworkSettings): (r: seq<string>)
    ensures net.numPeers <= 1 ==> r == [net.peerName]
    ensures net.numPeers > 1 ==> |r| == net.numPeers
    ensures net.numPeers > 1 ==> forall i :: 0 <= i < |r| ==> r[i] == net.peerName + Pad(i, net.numPeers)
  {
    if net.numPeers > 1 then seq(net.numPeers, i => net.peerName + Pad(i, net.numPeers))
    else [net.peerName]
  }

  /** `[i for i in s if i != n]`. */
  function Without(s: seq<string>, n: string): (r: seq<string>)
    ensures forall x :: x in r <==> x in s && x != n
  {
    if |s| == 0 then []
    else Without(s[..|s| - 1], n) + (if s[|s| - 1] != n then [s[|s| - 1]] else [])
  }

  /** The default network: everyone connected to everyone, nobody private. */
  function FullMesh(net: NetworkSettings): (r: Topology)
    ensures r.privatePeers == []
    ensures forall n :: n in r.lists <==> n in ValidatorNames(net) + PeerNames(net)
    ensures forall n :: n in r.keys <==> n in r.lists
  {
    var all := ValidatorNames(net) + PeerNames(net);
    DistinctSameElements(all);
    Topology(Distinct(all), map n | n in all :: Sort(Without(all, n)), [])
  }

  /** The topology of a network file, or the error reading it raises. */
  function FileTopology(spec: NetworkSpec): (r: Result<Topology, ConfigError>)
    ensures spec.edges.None? ==> r == Err(MissingEdges)
    ensures spec.edges == Some([]) ==> r == Err(PeersUnbound)
    ensures r.Ok? ==> forall n :: n in r.value.lists <==> n in Endpoints(spec.edges.value)
    ensures r.Ok? ==> forall n :: n in r.value.keys <==> n in r.value.lists
  {
    match spec.edges
    case None => Err(MissingEdges)
    case Some(edges) =>
      if |edges| == 0 then Err(PeersUnbound)
      else
        var e := Endpoints(edges);
        DistinctSameElements(e);
        Ok(Topology(Distinct(e), map n | n in e :: PeerList(edges, n),
                    match spec.privatePeers case Some(p) => p case None => []))
  }

  /** The topology `get_node_configs` works from, or the error it raises. */
  function TopologyOf(net: NetworkSettings, file: Option<NetworkSpec>): Result<Topology, ConfigError> {
    match file
    case None => Ok(FullMesh(net))
    case Some(spec) => FileTopology(spec)
  }

  /** The record built for node `n`. */
  function ConfigOf(t: Topology, n: string, validatorName: string): NodeCfg
    requires n in t.lists
  {
    NodeCfg(n, t.lists[n], if n in t.privatePeers then "true" else "false", StartsWith(n, validatorName))
  }

  /** The records of the nodes among `keys` whose validator flag is `validators`, in key order. */
  function Select(t: Topology, keys: seq<string>, validatorName: string, validators: bool): seq<NodeCfg>
    requires forall n :: n in keys ==> n in t.lists
  {
    if |keys| == 0 then []
    else
      var k := |keys| - 1;
      Select(t, keys[..k], validatorName, validators)
      + (if StartsWith(keys[k], validatorName) == validators then [ConfigOf(t, keys[k], validatorName)] else [])
  }

  /**
   * The network-file branch of `get_node_configs`: `get_nodes` (which raises
   * KeyError without an `edges` key), then `get_peers` when the edge list is
   * non-empty. The log line for a table that does not match `get_nodes` is
   * covered by `TopologyComplete`.
   */
  method LoadFile(spec: NetworkSpec) returns (r: Result<Topology, ConfigError>)
    ensures r == FileTopology(spec)
    ensures r.Ok? ==> forall n :: n in r.value.keys <==> n in r.value.lists
  {
    if spec.edges.None? {
      return Err(MissingEdges);
    }
    var edges := spec.edges.value;
    var all := GetNodes(edges);
    if |edges| == 0 {
      return Err(PeersUnbound);
    }
    var keys, peers := GetPeers(edges);
    var privatePeers := match spec.privatePeers case Some(p) => p case None => [];
    PeerTable(edges, keys, peers);
    r := Ok(Topology(keys, peers, privatePeers));
  }

  /** What `GetPeers` returns is the table of `FileTopology`, keyed by its nodes. */
  lemma PeerTable(edges: seq<Edge>, keys: seq<string>, peers: map<string, seq<string>>)
    requires keys == Distinct(Endpoints(edges))
    requires forall n :: n in peers <==> n in Endpoints(edges)
    requires forall n :: n in peers ==> peers[n] == PeerList(edges, n)
    ensures peers == map n | n in Endpoints(edges) :: PeerList(edges, n)
    ensures forall n :: n in keys <==> n in peers
  {
    DistinctSameElements(Endpoints(edges));
  }

  /** The first half of `get_node_configs`: the full-mesh default without a network file, else the file's topology. */
  method LoadTopology(net: NetworkSettings, file: Option<NetworkSpec>) returns (r: Result<Topology, ConfigError>)
    ensures r == TopologyOf(net, file)
    ensures r.Ok? ==> forall n :: n in r.value.keys <==> n in r.value.lists
  {
    if file.None? {
      r := Ok(FullMesh(net));
      DistinctSameElements(ValidatorNames(net) + PeerNames(net));
    } else {
      r := LoadFile(file.value);
    }
  }

  /** The second half of `get_node_configs`: each node's record, appended to `validators` or `peers`. */
  method Partition(t: Topology, validatorName: string) returns (validators: seq<NodeCfg>, others: seq<NodeCfg>)
    requires forall n :: n in t.keys ==> n in t.lists
    ensures validators == Select(t, t.keys, validatorName, true)
    ensures others == Select(t, t.keys, validatorName, false)
  {
    validators := [];
    others := [];
    for i := 0 to |t.keys|
      invariant validators == Select(t, t.keys[..i], validatorName, true)
      invariant others == Select(t, t.keys[..i], validatorName, false)
    {
      assert t.keys[..i + 1][..i] == t.keys[..i];
      var n := t.keys[i];
      var isValidator := StartsWith(n, validatorName);
      var cfg := NodeCfg(n, t.lists[n], if n in t.privatePeers then "true" else "false", isValidator);
      if isValidator {
        validators := validators + [cfg];
      } else {
        others := others + [cfg];
      }
    }
    assert t.keys[..|t.keys|] == t.keys;
  }

  /** `get_node_configs`: the topology, then the split of its nodes into validators and peers. */
  method GetNodeConfigs(net: NetworkSettings, file: Option<NetworkSpec>) returns (r: Result<NodeConfigs, ConfigError>)
    ensures TopologyOf(net, file).Err? ==> r == Err(TopologyOf(net, file).error)
    ensures TopologyOf(net, file).Ok? ==>
      var t := TopologyOf(net, file).value;
      (forall n :: n in t.keys ==> n in t.lists) &&
      r == Ok(NodeConfigs(Select(t, t.keys, net.validatorName, true), Select(t, t.keys, net.validatorName, false)))
  {
    var topology := LoadTopology(net, file);
    if topology.Err? {
      return Err(topology.error);
    }
    var validators, others := Partition(topology.value, net.validatorName);
    r := Ok(NodeConfigs(validators, others));
  }

  // ---------------------------------------------------------------------------
  // Properties of the configurations

  /** Every node lands in exactly one of the two lists. */
  lemma {:induction false} SelectCounts(t: Topology, keys: seq<string>, validatorName: string)
    requires forall n :: n in keys ==> n in t.lists
    ensures |Select(t, keys, validatorName, true)| + |Select(t, keys, validatorName, false)| == |keys|
  {
    if |keys| > 0 {
      var k := |keys| - 1;
      assert forall n :: n in keys[..k] ==> n in keys;
      SelectCounts(t, keys[..k], validatorName);
    }
  }

  /**
   * The validators list holds exactly the records whose name starts with the
   * validator name, the peers list the others; each record carries the node's
   * peer list and a `peer_private` of "true" or "false".
   */
  lemma {:induction false} SelectMembers(t: Topology, keys: seq<string>, validatorName: string, b: bool)
    requires forall n :: n in keys ==> n in t.lists
    ensures forall c :: c in Select(t, keys, validatorName, b) ==>
      c.isValidator == b && StartsWith(c.name, validatorName) == b && c.name in keys &&
      c.peerPrivate in ["true", "false"] && c.peers == t.lists[c.name]
  {
    if |keys| > 0 {
      var k := |keys| - 1;
      assert forall n :: n in keys[..k] ==> n in keys;
      SelectMembers(t, keys[..k], validatorName, b);
    }
  }

  /** Each node's record is in the list its name selects. */
  lemma {:induction false} SelectComplete(t: Topology, keys: seq<string>, validatorName: string, j: nat)
    requires forall n :: n in keys ==> n in t.lists
    requires j < |keys|
    ensures ConfigOf(t, keys[j], validatorName) in Select(t, keys, validatorName, StartsWith(keys[j], validatorName))
  {
    var k := |keys| - 1;
    if j < k {
      assert forall n :: n in keys[..k] ==> n in keys;
      assert keys[..k][j] == keys[j];
      SelectComplete(t, keys[..k], validatorName, j);
    }
  }

  /** In the default network each node's peers are all the other nodes, sorted. */
  lemma FullMeshPeers(net: NetworkSettings, n: string)
    requires n in FullMesh(net).lists
    ensures var all := ValidatorNames(net) + PeerNames(net);
      && Sorted(FullMesh(net).lists[n])
      && (forall m :: m in FullMesh(net).lists[n] <==> m in all && m != n)
  {
    var all := ValidatorNames(net) + PeerNames(net);
    SortProperties(Without(all, n));
    assert forall m :: m in Sort(Without(all, n)) <==> m in multiset(Without(all, n));
  }

  /** Asking for no peers still yields one peer node named exactly `peer_name`. */
  lemma NoPeersYieldsOne(net: NetworkSettings)
    requires net.numPeers <= 0
    ensures PeerNames(net) == [net.peerName]
  {
  }

  /** Default validator names are distinct and all of the same width. */
  lemma ValidatorNamesDistinct(net: NetworkSettings, i: int, j: int)
    requires 0 <= i < j < |ValidatorNames(net)|
    ensures ValidatorNames(net)[i] != ValidatorNames(net)[j]
    ensures |ValidatorNames(net)[i]| == |ValidatorNames(net)[j]|
  {
    var names := ValidatorNames(net);
    PadUniformWidth(i, j, net.numValidators);
    if names[i] == names[j] {
      var w := |net.validatorName|;
      assert names[i][w..] == Pad(i, net.numValidators);
      assert names[j][w..] == Pad(j, net.numValidators);
      PadInjective(i, j, net.numValidators);
    }
  }

  /**
   * With a network file, the "doesn't fully define the network" log never fires:
   * the peer table has exactly as many keys as `get_nodes` returns nodes.
   */
  lemma TopologyComplete(edges: seq<Edge>, nodes: seq<string>)
    requires StrictlySorted(nodes) && forall x :: x in nodes <==> x in Endpoints(edges)
    ensures |Distinct(Endpoints(edges))| == |nodes|
  {
    var d := Distinct(Endpoints(edges));
    DistinctSameElements(Endpoints(edges));
    SortProperties(d);
    PermutationNoDuplicates(d, Sort(d));
    SortedDistinctIsStrict(Sort(d));
    assert forall x :: x in Sort(d) <==> x in multiset(d);
    StrictlySortedUnique(nodes, Sort(d));
  }
}
