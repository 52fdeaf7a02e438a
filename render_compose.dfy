/**
 * The data side of the compose file (prepare_workload/compose/render_compose.py):
 * one service record per node, with host ports offset by the node's index
 * (peers first, then validators), and the optional UNL service.
 */
module RenderCompose {
  import opened Wrappers
  import opened Values
  import opened Text
  import opened Order

  type Dict = map<string, Value>

  const ContainerConfigPath: string := "/opt/ripple/etc"
  const ValidatorCommand: string := "[\"/opt/ripple/bin/rippled\", \"--start\"]"
  const PeerCommand: string := "[\"/opt/ripple/bin/rippled\", \"--start\"]"

  /** One compose service; `isValidator` is the key only validators carry. */
  datatype Service = Service(isValidator: Option<bool>, serviceName: string, containerName: string,
                             hostname: string, command: string, image: string, ports: seq<string>,
                             networkName: string, volumes: seq<string>)

  /** `data[key]` when it is a string. */
  function StrField(data: Dict, key: string): Option<string> {
    if key in data && data[key].VStr? then Some(data[key].s) else None
  }

  /** `data[key]` when it is an int. */
  function IntField(data: Dict, key: string): Option<int> {
    if key in data && data[key].VInt? then Some(data[key].i) else None
  }

  /** `data[key]` when it is a dict, else the empty dict (every read from it then fails). */
  function SubDict(data: Dict, key: string): Dict {
    if key in data && data[key].VDict? then data[key].d else map[]
  }

  /** `f"{base + idx}:{base}"`: host port, then container port. */
  function PortMapping(base: int, idx: int): string {
    IntToString(base + idx) + ":" + IntToString(base)
  }

  /** The fields the two render functions read from a node's merged data. */
  datatype NodeView = NodeView(name: string, image: string, rpcPort: int, wsPort: int,
                               networkName: string, volumesPath: string)

  /** The reads of `data['name']`, `data['compose_config'].image`, `data['ports'][...]`; `None` where one fails. */
  function View(data: Dict): Option<NodeView> {
    var name := StrField(data, "name");
    var image := StrField(SubDict(data, "compose_config"), "image");
    var rpc := IntField(SubDict(data, "ports"), "rpc_admin_local");
    var ws := IntField(SubDict(data, "ports"), "ws_admin_local");
    var net := StrField(SubDict(data, "compose_config"), "network_name");
    var volumes := StrField(data, "volumes_path");
    if name.Some? && image.Some? && rpc.Some? && ws.Some? && net.Some? && volumes.Some? then
      Some(NodeView(name.value, image.value, rpc.value, ws.value, net.value, volumes.value))
    else None
  }

  /**
   * The service record for a node at index `idx`: named after the node three
   * times over, `base + idx` mapped to `base` for both admin ports, the node's
   * own config directory mounted, and `is_validator` only on a validator.
   */
  function ServiceOf(idx: int, v: NodeView, validator: bool): (svc: Service)
    ensures svc.serviceName == v.name && svc.containerName == v.name && svc.hostname == v.name
    ensures svc.ports == [PortMapping(v.rpcPort, idx), PortMapping(v.wsPort, idx)]
    ensures svc.volumes == [v.volumesPath + "/" + v.name + ":" + ContainerConfigPath]
    ensures svc.isValidator == Some(true) <==> validator
    ensures svc.isValidator.None? <==> !validator
  {
    Service(if validator then Some(true) else None, v.name, v.name, v.name,
            if validator then ValidatorCommand else PeerCommand, v.image,
            [PortMapping(v.rpcPort, idx), PortMapping(v.wsPort, idx)], v.networkName,
            [v.volumesPath + "/" + v.name + ":" + ContainerConfigPath])
  }

  /** `render_validator` / `render_peer` on the merged node data; `None` where a read fails. */
  function Render(idx: int, data: Dict, validator: bool): Option<Service> {
    match View(data)
    case None => None
    case Some(v) => Some(ServiceOf(idx, v, validator))
  }

  function RenderPeer(idx: int, data: Dict): Option<Service> {
    Render(idx, data, false)
  }

  function RenderValidator(idx: int, data: Dict): Option<Service> {
    Render(idx, data, true)
  }

  /** The settings `render_compose_data` reads. */
  datatype ComposeSettings = ComposeSettings(nodeConfig: Dict, ports: Dict, networkDirName: string,
                                             configDir: string, image: string, networkName: string,
                                             useUnl: bool, unlFile: string)

  /** `s_data`: the settings every node's data is merged with. */
  function SharedData(s: ComposeSettings): Dict {
    map["node_data" := VDict(s.nodeConfig),
        "network_dir_name" := VStr(s.networkDirName),
        "volumes_path" := VStr("./" + s.configDir),
        "compose_config" := VDict(map["image" := VStr(s.image), "network_name" := VStr(s.networkName)]),
        "ports" := VDict(s.ports)]
  }

  /** `{**node, **shared}`: the shared settings win over the node's keys of the same name. */
  function Combine(node: Dict, shared: Dict): (r: Dict)
    ensures r.Keys == node.Keys + shared.Keys
    ensures forall k :: k in shared ==> r[k] == shared[k]
    ensures forall k :: k in node && k !in shared ==> r[k] == node[k]
  {
    node + shared
  }

  /** The sort key `itemgetter('name')`. */
  function NameOf(d: Dict): string {
    if "name" in d && d["name"].VStr? then d["name"].s else ""
  }

  /** `f` applied to each node with its index counted from `start`; `None` at the first failure. */
  function Enumerate(nodes: seq<Dict>, start: int, f: (int, Dict) -> Option<Service>): (r: Option<seq<Service>>)
    ensures r.Some? ==> |r.value| == |nodes|
  {
    if |nodes| == 0 then Some([])
    else
      var n := |nodes| - 1;
      match Enumerate(nodes[..n], start, f)
      case None => None
      case Some(prev) =>
        match f(start + n, nodes[n])
        case None => None
        case Some(svc) => Some(prev + [svc])
  }

  /** Rendering one node: its data merged with the shared settings. */
  function RenderWith(shared: Dict, validator: bool): (int, Dict) -> Option<Service> {
    (idx: int, node: Dict) => Render(idx, Combine(node, shared), validator)
  }

  /** The services of `nodes`, numbered from `start`; `None` if one of them cannot be rendered. */
  function RenderAll(nodes: seq<Dict>, start: int, shared: Dict, validator: bool): Option<seq<Service>> {
    Enumerate(nodes, start, RenderWith(shared, validator))
  }

  datatype UnlService = UnlService(name: string, unlFile: string, networkName: string)

  datatype ComposeData = ComposeData(validators: seq<Service>, peers: seq<Service>, useUnl: bool,
                                     networkName: string, unlService: Option<UnlService>)

  /** What `render_compose_data` hands to the compose template. */
  function ComposeSpec(validators: seq<Dict>, peers: seq<Dict>, s: ComposeSettings): (r: Option<ComposeData>)
    ensures r.Some? ==> r.value.useUnl == s.useUnl && r.value.networkName == s.networkName
    ensures r.Some? ==> (r.value.unlService.Some? <==> s.useUnl)
    ensures r.Some? && s.useUnl ==> r.value.unlService.value == UnlService("unl", s.unlFile, s.networkName)
  {
    var shared := SharedData(s);
    match RenderAll(SortBy(validators, NameOf), |peers|, shared, true)
    case None => None
    case Some(vs) =>
      match RenderAll(SortBy(peers, NameOf), 0, shared, false)
      case None => None
      case Some(ps) =>
        Some(ComposeData(vs, ps, s.useUnl, s.networkName,
                         if s.useUnl then Some(UnlService("unl", s.unlFile, s.networkName)) else None))
  }

  /** `for idx, node in enumerate(nodes, start)`: `f` applied node by node, stopping at the first failure. */
  method EnumerateNodes(nodes: seq<Dict>, start: int, f: (int, Dict) -> Option<Service>) returns (r: Option<seq<Service>>)
    ensures r == Enumerate(nodes, start, f)
  {
    var out: seq<Service> := [];
    for i := 0 to |nodes|
      invariant Enumerate(nodes[..i], start, f) == Some(out)
    {
      assert nodes[..i + 1][..i] == nodes[..i];
      var svc := f(start + i, nodes[i]);
      if svc.None? {
        EnumerateFailurePersists(nodes, start, f, i + 1);
        return None;
      }
      out := out + [svc.value];
    }
    assert nodes[..|nodes|] == nodes;
    r := Some(out);
  }

  /** The two enumerate loops: `nodes` rendered in order from index `start`. */
  method RenderNodes(nodes: seq<Dict>, start: int, shared: Dict, validator: bool) returns (r: Option<seq<Service>>)
    ensures r == RenderAll(nodes, start, shared, validator)
  {
    r := EnumerateNodes(nodes, start, RenderWith(shared, validator));
  }

  lemma {:induction false} EnumerateFailurePersists(nodes: seq<Dict>, start: int, f: (int, Dict) -> Option<Service>, i: nat)
    requires i <= |nodes| && Enumerate(nodes[..i], start, f).None?
    ensures Enumerate(nodes, start, f).None?
    decreases |nodes| - i
  {
    if i < |nodes| {
      assert nodes[..i + 1][..i] == nodes[..i];
      EnumerateFailurePersists(nodes, start, f, i + 1);
    } else {
      assert nodes[..i] == nodes;
    }
  }

  /** `render_compose_data` up to the template: validators from index `len(peers)`, peers from 0. */
  method RenderComposeData(validators: seq<Dict>, peers: seq<Dict>, s: ComposeSettings) returns (r: Option<ComposeData>)
    ensures r == ComposeSpec(validators, peers, s)
  {
    var shared := SharedData(s);
    var startIndex := |peers|;
    var vl := SortBy(validators, NameOf);
    var validatorData := RenderNodes(vl, startIndex, shared, true);
    if validatorData.None? {
      return None;
    }
    var pl := SortBy(peers, NameOf);
    var peerData := RenderNodes(pl, 0, shared, false);
    if peerData.None? {
      return None;
    }
    var unl: Option<UnlService> := None;
    if s.useUnl {
      unl := Some(UnlService("unl", s.unlFile, s.networkName));
    }
    r := Some(ComposeData(validatorData.value, peerData.value, s.useUnl, s.networkName, unl));
  }

  // ---------------------------------------------------------------------------
  // Properties

  /**
   * In the merged data the node keeps its own name, while the ports, the
   * image, the network and the volumes path are the shared ones.
   */
  lemma CombinedView(node: Dict, s: ComposeSettings)
    ensures var rpc := IntField(s.ports, "rpc_admin_local");
      var ws := IntField(s.ports, "ws_admin_local");
      && (View(Combine(node, SharedData(s))).Some? <==> StrField(node, "name").Some? && rpc.Some? && ws.Some?)
      && (View(Combine(node, SharedData(s))).Some? ==>
            View(Combine(node, SharedData(s))).value
            == NodeView(StrField(node, "name").value, s.image, rpc.value, ws.value, s.networkName, "./" + s.configDir))
  {
    var data := Combine(node, SharedData(s));
    assert "name" !in SharedData(s);
    assert SubDict(data, "compose_config") == map["image" := VStr(s.image), "network_name" := VStr(s.networkName)];
    assert SubDict(data, "ports") == s.ports;
  }

  /** The i-th result is `f` at index `start + i` on the i-th node. */
  lemma {:induction false} EnumerateIndexed(nodes: seq<Dict>, start: int, f: (int, Dict) -> Option<Service>)
    requires Enumerate(nodes, start, f).Some?
    ensures |Enumerate(nodes, start, f).value| == |nodes|
    ensures forall i :: 0 <= i < |nodes| ==> f(start + i, nodes[i]) == Some(Enumerate(nodes, start, f).value[i])
  {
    if |nodes| > 0 {
      var n := |nodes| - 1;
      EnumerateIndexed(nodes[..n], start, f);
      assert forall i :: 0 <= i < n ==> nodes[..n][i] == nodes[i];
    }
  }

  /** Enumeration fails exactly when `f` fails on some node. */
  lemma {:induction false} EnumerateFails(nodes: seq<Dict>, start: int, f: (int, Dict) -> Option<Service>)
    ensures Enumerate(nodes, start, f).None? <==> exists i :: 0 <= i < |nodes| && f(start + i, nodes[i]).None?
  {
    if |nodes| > 0 {
      var n := |nodes| - 1;
      EnumerateFails(nodes[..n], start, f);
      assert forall i :: 0 <= i < n ==> nodes[..n][i] == nodes[i];
    }
  }

  /** The i-th rendered service is the i-th node rendered at index `start + i`. */
  lemma RenderAllIndexed(nodes: seq<Dict>, start: int, shared: Dict, validator: bool)
    requires RenderAll(nodes, start, shared, validator).Some?
    ensures |RenderAll(nodes, start, shared, validator).value| == |nodes|
    ensures forall i :: 0 <= i < |nodes| ==>
      Render(start + i, Combine(nodes[i], shared), validator) == Some(RenderAll(nodes, start, shared, validator).value[i])
  {
    EnumerateIndexed(nodes, start, RenderWith(shared, validator));
  }

  /**
   * Each rendered service is named after its node, in the order of `nodes`;
   * it mounts `./<config_dir>/<name>`, takes the shared image and network, and
   * carries `is_validator = True` exactly when rendered as a validator.
   */
  lemma RenderAllNames(nodes: seq<Dict>, start: int, s: ComposeSettings, validator: bool)
    requires RenderAll(nodes, start, SharedData(s), validator).Some?
    ensures var r := RenderAll(nodes, start, SharedData(s), validator).value;
      |r| == |nodes| && forall i :: 0 <= i < |nodes| ==>
        && r[i].serviceName == NameOf(nodes[i])
        && r[i].volumes == ["./" + s.configDir + "/" + NameOf(nodes[i]) + ":" + ContainerConfigPath]
        && r[i].image == s.image && r[i].networkName == s.networkName
        && r[i].isValidator == (if validator then Some(true) else None)
  {
    var r := RenderAll(nodes, start, SharedData(s), validator).value;
    RenderAllIndexed(nodes, start, SharedData(s), validator);
    forall i | 0 <= i < |nodes|
      ensures r[i].serviceName == NameOf(nodes[i])
      ensures r[i].volumes == ["./" + s.configDir + "/" + NameOf(nodes[i]) + ":" + ContainerConfigPath]
      ensures r[i].image == s.image && r[i].networkName == s.networkName
      ensures r[i].isValidator == (if validator then Some(true) else None)
    {
      CombinedView(nodes[i], s);
    }
  }

  /** Equal host-port strings against the same base come from the same index. */
  lemma PortMappingInjective(base: int, i: int, j: int)
    ensures PortMapping(base, i) == PortMapping(base, j) ==> i == j
  {
    var a, b := IntToString(base + i), IntToString(base + j);
    var tail := ":" + IntToString(base);
    assert PortMapping(base, i) == a + tail;
    assert PortMapping(base, j) == b + tail;
    if a + tail == b + tail {
      assert |a| == |b|;
      assert a == (a + tail)[..|a|];
      assert b == (b + tail)[..|b|];
      IntToStringInjective(base + i, base + j);
    }
  }

  /** The i-th rendered service maps host ports `base + start + i` to the shared admin ports. */
  lemma RenderAllPorts(nodes: seq<Dict>, start: int, s: ComposeSettings, validator: bool)
    requires RenderAll(nodes, start, SharedData(s), validator).Some? && |nodes| > 0
    ensures IntField(s.ports, "rpc_admin_local").Some? && IntField(s.ports, "ws_admin_local").Some?
    ensures var r := RenderAll(nodes, start, SharedData(s), validator).value;
      |r| == |nodes| &&
      PortsIndexed(r, start, IntField(s.ports, "rpc_admin_local").value, IntField(s.ports, "ws_admin_local").value)
  {
    var r := RenderAll(nodes, start, SharedData(s), validator).value;
    RenderAllIndexed(nodes, start, SharedData(s), validator);
    CombinedView(nodes[0], s);
    forall i | 0 <= i < |nodes|
      ensures r[i].ports == [PortMapping(IntField(s.ports, "rpc_admin_local").value, start + i),
                             PortMapping(IntField(s.ports, "ws_admin_local").value, start + i)]
    {
      CombinedView(nodes[i], s);
    }
  }

  /** The two halves of the compose data: the sorted validators and the sorted peers, each rendered. */
  lemma ComposeParts(validators: seq<Dict>, peers: seq<Dict>, s: ComposeSettings)
    requires ComposeSpec(validators, peers, s).Some?
    ensures RenderAll(SortBy(validators, NameOf), |peers|, SharedData(s), true).Some?
    ensures RenderAll(SortBy(peers, NameOf), 0, SharedData(s), false).Some?
    ensures ComposeSpec(validators, peers, s).value.validators
         == RenderAll(SortBy(validators, NameOf), |peers|, SharedData(s), true).value
    ensures ComposeSpec(validators, peers, s).value.peers
         == RenderAll(SortBy(peers, NameOf), 0, SharedData(s), false).value
  {
  }

  /** One service per sorted validator and one per sorted peer. */
  lemma ComposeLengths(validators: seq<Dict>, peers: seq<Dict>, s: ComposeSettings)
    requires ComposeSpec(validators, peers, s).Some?
    ensures var cd := ComposeSpec(validators, peers, s).value;
      |cd.peers| == |peers| && |cd.validators| == |validators|
  {
    ComposeParts(validators, peers, s);
    SortByProperties(validators, NameOf);
    SortByProperties(peers, NameOf);
  }

  /** Service i maps host ports `base + i`, for the RPC base and the websocket base. */
  predicate PortsIndexed(svcs: seq<Service>, offset: int, rpc: int, ws: int) {
    forall i :: 0 <= i < |svcs| ==> svcs[i].ports == [PortMapping(rpc, offset + i), PortMapping(ws, offset + i)]
  }

  lemma ConcatIndexed(ps: seq<Service>, vs: seq<Service>, rpc: int, ws: int)
    requires PortsIndexed(ps, 0, rpc, ws) && PortsIndexed(vs, |ps|, rpc, ws)
    ensures PortsIndexed(ps + vs, 0, rpc, ws)
  {
    forall k | 0 <= k < |ps + vs|
      ensures (ps + vs)[k].ports == [PortMapping(rpc, k), PortMapping(ws, k)]
    {
      if k >= |ps| {
        assert (ps + vs)[k] == vs[k - |ps|];
      }
    }
  }

  /** Peers take indices `0 .. len(peers)`, validators the ones after: service k maps host ports `base + k`. */
  lemma ComposeIndices(validators: seq<Dict>, peers: seq<Dict>, s: ComposeSettings)
    requires ComposeSpec(validators, peers, s).Some? && |validators| + |peers| > 0
    ensures IntField(s.ports, "rpc_admin_local").Some? && IntField(s.ports, "ws_admin_local").Some?
    ensures var cd := ComposeSpec(validators, peers, s).value;
      && |cd.peers| == |peers| && |cd.validators| == |validators|
      && PortsIndexed(cd.peers + cd.validators, 0,
                      IntField(s.ports, "rpc_admin_local").value, IntField(s.ports, "ws_admin_local").value)
  {
    var vl, pl := SortBy(validators, NameOf), SortBy(peers, NameOf);
    ComposeParts(validators, peers, s);
    SortByProperties(validators, NameOf);
    SortByProperties(peers, NameOf);
    var vs := RenderAll(vl, |peers|, SharedData(s), true).value;
    var ps := RenderAll(pl, 0, SharedData(s), false).value;
    if |pl| > 0 {
      RenderAllPorts(pl, 0, s, false);
    }
    if |vl| > 0 {
      RenderAllPorts(vl, |peers|, s, true);
    }
    ConcatIndexed(ps, vs, IntField(s.ports, "rpc_admin_local").value, IntField(s.ports, "ws_admin_local").value);
  }

  /** Services at different positions have different host ports. */
  lemma IndexedPortsDistinct(all: seq<Service>, rpc: int, ws: int, a: nat, b: nat)
    requires PortsIndexed(all, 0, rpc, ws) && a < b < |all|
    ensures all[a].ports[0] != all[b].ports[0] && all[a].ports[1] != all[b].ports[1]
  {
    PortMappingInjective(rpc, a, b);
    PortMappingInjective(ws, a, b);
  }

  /** No two services share a host port: the RPC and the websocket mappings all differ. */
  lemma HostPortsDistinct(validators: seq<Dict>, peers: seq<Dict>, s: ComposeSettings, a: nat, b: nat)
    requires ComposeSpec(validators, peers, s).Some?
    requires a < b < |validators| + |peers|
    ensures var cd := ComposeSpec(validators, peers, s).value;
      var all := cd.peers + cd.validators;
      && b < |all| && |all[a].ports| == 2 && |all[b].ports| == 2
      && all[a].ports[0] != all[b].ports[0] && all[a].ports[1] != all[b].ports[1]
  {
    ComposeIndices(validators, peers, s);
    var cd := ComposeSpec(validators, peers, s).value;
    IndexedPortsDistinct(cd.peers + cd.validators, IntField(s.ports, "rpc_admin_local").value,
                         IntField(s.ports, "ws_admin_local").value, a, b);
  }

  /** The compose data has a `unl_service` exactly when the UNL is in use. */
  lemma UnlServiceIffUseUnl(validators: seq<Dict>, peers: seq<Dict>, s: ComposeSettings)
    requires ComposeSpec(validators, peers, s).Some?
    ensures ComposeSpec(validators, peers, s).value.unlService.Some? <==> s.useUnl
  {
  }

  /** Rendering fails exactly when some node has no string name, or the shared ports lack an admin port. */
  lemma RenderAllFails(nodes: seq<Dict>, start: int, s: ComposeSettings, validator: bool)
    ensures RenderAll(nodes, start, SharedData(s), validator).None? <==>
      (|nodes| > 0 && (IntField(s.ports, "rpc_admin_local").None? || IntField(s.ports, "ws_admin_local").None?))
      || exists i :: 0 <= i < |nodes| && StrField(nodes[i], "name").None?
  {
    var f := RenderWith(SharedData(s), validator);
    EnumerateFails(nodes, start, f);
    forall i | 0 <= i < |nodes| ensures f(start + i, nodes[i]).None? <==>
      IntField(s.ports, "rpc_admin_local").None? || IntField(s.ports, "ws_admin_local").None? || StrField(nodes[i], "name").None?
    {
      CombinedView(nodes[i], s);
    }
  }

  /** Validators are rendered in name order, as are peers; only the validators carry `is_validator`. */
  lemma ServicesInNameOrder(validators: seq<Dict>, peers: seq<Dict>, s: ComposeSettings)
    requires ComposeSpec(validators, peers, s).Some?
    ensures var cd := ComposeSpec(validators, peers, s).value;
      && (forall i, j :: 0 <= i < j < |cd.validators| ==> Le(cd.validators[i].serviceName, cd.validators[j].serviceName))
      && (forall i, j :: 0 <= i < j < |cd.peers| ==> Le(cd.peers[i].serviceName, cd.peers[j].serviceName))
      && (forall i :: 0 <= i < |cd.validators| ==> cd.validators[i].isValidator == Some(true))
      && (forall i :: 0 <= i < |cd.peers| ==> cd.peers[i].isValidator.None?)
  {
    ComposeParts(validators, peers, s);
    SortByProperties(validators, NameOf);
    SortByProperties(peers, NameOf);
    RenderAllNames(SortBy(validators, NameOf), |peers|, s, true);
    RenderAllNames(SortBy(peers, NameOf), 0, s, false);
  }
}
