/**
 * The entry point of the network preparation (prepare-workload/main.py): the
 * command-line overrides handed to the settings loader, the data dictionary
 * each node's config file is rendered from, and the loop that hands out
 * validator keys before the configs are written.
 *
 * Key generation is an input: `gen(k)` is what the k-th call of
 * `gen_validator()` returns. The configs are dict values; the in-place
 * updates of the Python dicts become new dicts in the result.
 */
module PrepareMain {
  import opened Wrappers
  import opened Values
  import opened Text
  import NodeConfig
  import Settings

  type Dict = map<string, Value>

  // ---------------------------------------------------------------------------
  // Command-line overrides

  /** The parsed arguments `overrides` reads (`--network` is not among them). */
  datatype Args = Args(testnetDir: Option<string>, numValidators: Option<int>, needFeatures: bool)

  /**
   * `overrides(a)`: `testnet_dir` when given, `network.num_validators` when
   * given, `node_config.need_features` when set — and nothing else.
   */
  function OverridesOf(a: Args): (o: Dict)
    ensures "testnet_dir" in o <==> a.testnetDir.Some?
    ensures a.testnetDir.Some? ==> o["testnet_dir"] == VStr(a.testnetDir.value)
    ensures "network" in o <==> a.numValidators.Some?
    ensures a.numValidators.Some? ==> o["network"] == VDict(map["num_validators" := VInt(a.numValidators.value)])
    ensures "node_config" in o <==> a.needFeatures
    ensures a.needFeatures ==> o["node_config"] == VDict(map["need_features" := VBool(true)])
    ensures o.Keys <= {"testnet_dir", "network", "node_config"}
  {
    var o1: Dict := if a.testnetDir.Some? then map["testnet_dir" := VStr(a.testnetDir.value)] else map[];
    var o2 := if a.numValidators.Some? then o1["network" := VDict(map["num_validators" := VInt(a.numValidators.value)])] else o1;
    if a.needFeatures then o2["node_config" := VDict(map["need_features" := VBool(true)])] else o2
  }

  /** `overrides` as written: two nested dicts filled conditionally, each added only when non-empty. */
  method Overrides(a: Args) returns (o: Dict)
    ensures o == OverridesOf(a)
  {
    o := map[];
    var net: Dict := map[];
    var nc: Dict := map[];
    if a.testnetDir.Some? {
      o := o["testnet_dir" := VStr(a.testnetDir.value)];
    }
    if a.numValidators.Some? {
      net := net["num_validators" := VInt(a.numValidators.value)];
    }
    if |net| > 0 {
      o := o["network" := VDict(net)];
    }
    if a.needFeatures {
      nc := nc["need_features" := VBool(a.needFeatures)];
    }
    if |nc| > 0 {
      o := o["node_config" := VDict(nc)];
    }
  }

  /** A validator count given on the command line is the one the settings end up with. */
  lemma CommandLineNumValidatorsWins(file: Option<Dict>, env: seq<(string, string)>, a: Args)
    requires a.numValidators.Some?
    requires Settings.Configure(file, env, OverridesOf(a)).Ok?
    ensures Lookup(Settings.Configure(file, env, OverridesOf(a)).value, ["network", "num_validators"])
         == Some(VInt(a.numValidators.value))
  {
    var o := OverridesOf(a);
    var path := ["network", "num_validators"];
    var n := VInt(a.numValidators.value);
    var inner: Dict := map["num_validators" := n];
    assert o["network"] == VDict(inner);
    assert path[1..] == ["num_validators"] && ["num_validators"][1..] == [];
    assert Lookup(VDict(inner), ["num_validators"]) == Lookup(n, []) == Some(n);
    assert Lookup(VDict(o), path) == Some(n);
    Settings.Precedence(file, env, o, path, VInt(a.numValidators.value));
  }

  /** Without `--num-validators` the overrides say nothing about the count, so the lower layers decide it. */
  lemma NoCountNoOverride(a: Args)
    requires a.numValidators.None?
    ensures Untouched(VDict(OverridesOf(a)), ["network", "num_validators"])
  {
  }

  // ---------------------------------------------------------------------------
  // The data of one node's config file

  /**
   * `f"{v}"` of a scalar: the string itself, the integer in decimal,
   * "True"/"False", "None". The repr of a list or a dict is not modelled.
   */
  function Formatted(v: Value): (r: Option<string>)
    ensures r.None? <==> v.VList? || v.VDict?
    ensures v.VStr? ==> r == Some(v.s)
    ensures v.VInt? ==> r == Some(IntToString(v.i))
  {
    match v
    case VStr(s) => Some(s)
    case VInt(i) => Some(IntToString(i))
    case VBool(b) => Some(if b then "True" else "False")
    case VNone => Some("None")
    case _ => None
  }

  /**
   * The texts `f"{p}"` for `p in peers`: the formatted items of a list, the
   * characters of a string. `None` where Python cannot iterate the entry (a
   * number, a bool, None), and where the model stops: a dict entry, or a
   * list item that is itself a list or a dict.
   */
  function PeerNames(v: Value): (r: Option<seq<string>>)
    ensures v.VList? ==> (r.Some? <==> forall i :: 0 <= i < |v.items| ==> Formatted(v.items[i]).Some?)
    ensures v.VList? && r.Some? ==>
      |r.value| == |v.items| && forall i :: 0 <= i < |v.items| ==> r.value[i] == Formatted(v.items[i]).value
    ensures v.VStr? ==> r.Some? && |r.value| == |v.s| && forall i :: 0 <= i < |v.s| ==> r.value[i] == [v.s[i]]
    ensures v.VInt? || v.VBool? || v.VNone? || v.VDict? ==> r.None?
  {
    match v
    case VList(items) =>
      if forall i :: 0 <= i < |items| ==> Formatted(items[i]).Some? then
        Some(seq(|items|, i requires 0 <= i < |items| && Formatted(items[i]).Some? => Formatted(items[i]).value))
      else None
    case VStr(text) => Some(seq(|text|, i requires 0 <= i < |text| => [text[i]]))
    case _ => None
  }

  /** `[f"{p} {port}" for p in peers]`, with the port already formatted. */
  function IpsFixedLines(peers: seq<string>, port: string): (lines: seq<string>)
    ensures |lines| == |peers|
    ensures forall i :: 0 <= i < |peers| ==> lines[i] == peers[i] + " " + port
  {
    seq(|peers|, i requires 0 <= i < |peers| => peers[i] + " " + port)
  }

  /**
   * The `ips_fixed` text. The peer port is read once per peer, so with no
   * peers a missing port raises nothing.
   */
  function IpsFixed(peers: seq<string>, ports: Dict): (r: Option<string>)
    ensures r.None? <==> |peers| > 0 && ("peer" !in ports || ports["peer"].VList? || ports["peer"].VDict?)
    ensures |peers| == 0 ==> r == Some("")
  {
    if |peers| == 0 then Some("")
    else if "peer" in ports && Formatted(ports["peer"]).Some? then
      Some(Join("\n", IpsFixedLines(peers, Formatted(ports["peer"]).value)))
    else None
  }

  /** `node_data["keys"]["master_seed"]`. */
  function SeedOf(nodeData: Dict): Option<Value> {
    if "keys" in nodeData && nodeData["keys"].VDict? && "master_seed" in nodeData["keys"].d then
      Some(nodeData["keys"].d["master_seed"])
    else None
  }

  /** The settings `write_config` reads. */
  datatype ServerSettings = ServerSettings(ports: Dict, needFeatures: Value, nodeConfigTemplate: string,
                                           validatorPublicKeys: seq<string>, voting: Value)

  /** Where building the data raises: a missing key, a `peers` entry that gives no peer texts (see `PeerNames`). */
  datatype WriteError = MissingKey(key: string) | NotPeerNames

  /** The keys `write_config` computes before the node's own keys are spread over them. */
  const ComputedKeys: set<string> := {"ports", "need_features", "node_config_template", "validator_public_keys", "ips_fixed"}

  /** The keys written after the spread, and so never taken from the node. */
  predicate WrittenAfter(k: string, validator: bool) {
    k == "signing_support" || (validator && (k == "validation_seed" || k == "voting"))
  }

  /** The computed defaults of the data dict. */
  function Computed(s: ServerSettings, ips: string): (d: Dict)
    ensures d.Keys == ComputedKeys
    ensures d["ports"] == VDict(s.ports) && d["ips_fixed"] == VStr(ips)
    ensures d["validator_public_keys"] == VStr(Join("\n", s.validatorPublicKeys))
  {
    map["ports" := VDict(s.ports), "need_features" := s.needFeatures,
        "node_config_template" := VStr(s.nodeConfigTemplate),
        "validator_public_keys" := VStr(Join("\n", s.validatorPublicKeys)),
        "ips_fixed" := VStr(ips)]
  }

  /**
   * `write_config` up to the template: the computed defaults, the node's own
   * keys over them, then the validator-only keys and `signing_support`.
   */
  method ConfigData(nodeData: Dict, s: ServerSettings) returns (r: Result<Dict, WriteError>)
    ensures "is_validator" !in nodeData ==> r == Err(MissingKey("is_validator"))
    ensures "is_validator" in nodeData && "peers" !in nodeData ==> r == Err(MissingKey("peers"))
    ensures r.Ok? <==>
      && "is_validator" in nodeData && "peers" in nodeData
      && PeerNames(nodeData["peers"]).Some?
      && IpsFixed(PeerNames(nodeData["peers"]).value, s.ports).Some?
      && (Truthy(nodeData["is_validator"]) ==> SeedOf(nodeData).Some?)
    ensures r.Ok? ==>
      var d := r.value;
      var validator := Truthy(nodeData["is_validator"]);
      && (forall k :: k in d <==> k in nodeData || k in ComputedKeys || WrittenAfter(k, validator))
      && "signing_support" in d && ComputedKeys <= d.Keys && (validator ==> "validation_seed" in d && "voting" in d)
      && d["signing_support"] == VStr(if validator then "false" else "true")
      && (validator ==> d["validation_seed"] == SeedOf(nodeData).value && d["voting"] == s.voting)
      && (forall k :: k in nodeData && !WrittenAfter(k, validator) ==> d[k] == nodeData[k])
      && ("ports" !in nodeData ==> d["ports"] == VDict(s.ports))
      && ("validator_public_keys" !in nodeData ==> d["validator_public_keys"] == VStr(Join("\n", s.validatorPublicKeys)))
      && ("ips_fixed" !in nodeData ==>
            d["ips_fixed"] == VStr(IpsFixed(PeerNames(nodeData["peers"]).value, s.ports).value))
  {
    if "is_validator" !in nodeData {
      return Err(MissingKey("is_validator"));
    }
    var isValidator := nodeData["is_validator"];
    if "peers" !in nodeData {
      return Err(MissingKey("peers"));
    }
    var peers := PeerNames(nodeData["peers"]);
    if peers.None? {
      return Err(NotPeerNames);
    }
    var ips := IpsFixed(peers.value, s.ports);
    if ips.None? {
      return Err(MissingKey("peer"));
    }
    var seed := SeedOf(nodeData);
    if Truthy(isValidator) && seed.None? {
      return Err(MissingKey("master_seed"));
    }
    var d := Spread(nodeData, s, ips.value, Truthy(isValidator), if seed.Some? then seed.value else VNone);
    r := Ok(d);
  }

  /** The data dict once the inputs are known good: defaults, the node's keys, then the keys written after. */
  method Spread(nodeData: Dict, s: ServerSettings, ips: string, validator: bool, seed: Value) returns (d: Dict)
    ensures forall k :: k in d <==> k in nodeData || k in ComputedKeys || WrittenAfter(k, validator)
    ensures "signing_support" in d && ComputedKeys <= d.Keys && (validator ==> "validation_seed" in d && "voting" in d)
    ensures d["signing_support"] == VStr(if validator then "false" else "true")
    ensures validator ==> d["validation_seed"] == seed && d["voting"] == s.voting
    ensures forall k :: k in nodeData && !WrittenAfter(k, validator) ==> d[k] == nodeData[k]
    ensures "ports" !in nodeData ==> d["ports"] == VDict(s.ports)
    ensures "validator_public_keys" !in nodeData ==> d["validator_public_keys"] == VStr(Join("\n", s.validatorPublicKeys))
    ensures "ips_fixed" !in nodeData ==> d["ips_fixed"] == VStr(ips)
  {
    d := Computed(s, ips);
    d := d + nodeData;
    if validator {
      d := d["validation_seed" := seed];
      d := d["voting" := s.voting];
    }
    d := d["signing_support" := VStr(if !validator then "true" else "false")];
  }

  // ---------------------------------------------------------------------------
  // Key assignment in `main`

  /** What `gen_validator()` returns. */
  datatype ValidatorKeys = ValidatorKeys(masterSeed: string, signingSeed: string, nodePublicKey: string,
                                         masterPubkey: string, masterPrivkey: string,
                                         signingPubkey: string, signingPrivkey: string)

  function KeysValue(k: ValidatorKeys): Value {
    VDict(map["master_seed" := VStr(k.masterSeed), "signing_seed" := VStr(k.signingSeed),
              "node_public_key" := VStr(k.nodePublicKey), "master_pubkey" := VStr(k.masterPubkey),
              "master_privkey" := VStr(k.masterPrivkey), "signing_pubkey" := VStr(k.signingPubkey),
              "signing_privkey" := VStr(k.signingPrivkey)])
  }

  predicate IsValidatorCfg(c: Dict) {
    "is_validator" in c && Truthy(c["is_validator"])
  }

  /** The number of validators among the first `i` configs. */
  function ValidatorCount(configs: seq<Dict>, i: nat): (n: nat)
    requires i <= |configs|
    ensures n <= i
  {
    if i == 0 then 0 else ValidatorCount(configs, i - 1) + (if IsValidatorCfg(configs[i - 1]) then 1 else 0)
  }

  /** The publisher takes the first key draw when the UNL is in use; validators draw after it. */
  function Offset(useUnl: bool): nat {
    if useUnl then 1 else 0
  }

  /** The keys config `i` receives: the next draw, for a validator; none otherwise. */
  function KeysFor(configs: seq<Dict>, i: nat, useUnl: bool, gen: nat -> ValidatorKeys): Option<ValidatorKeys>
    requires i < |configs|
  {
    if IsValidatorCfg(configs[i]) then Some(gen(Offset(useUnl) + ValidatorCount(configs, i))) else None
  }

  /** One config after the loop body: its keys, `use_unl`, and with the UNL the publisher key and the sites. */
  function Assigned(c: Dict, keys: Option<ValidatorKeys>, useUnl: bool, publisher: ValidatorKeys, sites: Value): Dict {
    var c1 := if keys.Some? then c["keys" := KeysValue(keys.value)] else c;
    var c2 := c1["use_unl" := VBool(useUnl)];
    if useUnl then c2["validator_list_keys" := VStr(publisher.masterPubkey)]["validator_list_sites" := sites] else c2
  }

  /** The body of the loop on one config: the updates `main` makes to it in place. */
  method AssignOne(c: Dict, keys: Option<ValidatorKeys>, useUnl: bool, publisher: ValidatorKeys, sites: Value) returns (config: Dict)
    ensures config == Assigned(c, keys, useUnl, publisher, sites)
  {
    config := c;
    if keys.Some? {
      config := config["keys" := KeysValue(keys.value)];
    }
    config := config["use_unl" := VBool(useUnl)];
    if useUnl {
      config := config["validator_list_keys" := VStr(publisher.masterPubkey)];
      config := config["validator_list_sites" := sites];
    }
  }

  datatype Assignment = Assignment(configs: seq<Dict>, validators: seq<ValidatorKeys>, publicKeys: seq<string>)

  /** The draws handed to validators, in config order. */
  function Draws(configs: seq<Dict>, useUnl: bool, gen: nat -> ValidatorKeys): (ks: seq<ValidatorKeys>)
    ensures |ks| == ValidatorCount(configs, |configs|)
  {
    seq(ValidatorCount(configs, |configs|), k requires 0 <= k => gen(Offset(useUnl) + k))
  }

  /** The first `count` draws after the offset, and their node public keys in the same order. */
  predicate DrawnSoFar(validators: seq<ValidatorKeys>, publicKeys: seq<string>, count: nat, useUnl: bool, gen: nat -> ValidatorKeys) {
    && |validators| == count && (forall k :: 0 <= k < count ==> validators[k] == gen(Offset(useUnl) + k))
    && |publicKeys| == count && (forall k :: 0 <= k < count ==> publicKeys[k] == validators[k].nodePublicKey)
  }

  lemma DrawOne(validators: seq<ValidatorKeys>, publicKeys: seq<string>, count: nat, useUnl: bool, gen: nat -> ValidatorKeys)
    requires DrawnSoFar(validators, publicKeys, count, useUnl, gen)
    ensures var v := gen(Offset(useUnl) + count);
      DrawnSoFar(validators + [v], publicKeys + [v.nodePublicKey], count + 1, useUnl, gen)
  {
  }

  /**
   * The first loop of `main`: validators receive keys and their node public
   * keys are collected; every config records `use_unl`, and with the UNL the
   * publisher's master public key and the list sites. A config without
   * `is_validator` raises KeyError.
   */
  method AssignKeys(configs: seq<Dict>, useUnl: bool, sites: Value, gen: nat -> ValidatorKeys) returns (r: Result<Assignment, string>)
    ensures r.Err? <==> exists i :: 0 <= i < |configs| && "is_validator" !in configs[i]
    ensures r.Ok? ==>
      && |r.value.configs| == |configs|
      && (forall i :: 0 <= i < |configs| ==>
            r.value.configs[i] == Assigned(configs[i], KeysFor(configs, i, useUnl, gen), useUnl, gen(0), sites))
      && r.value.validators == Draws(configs, useUnl, gen)
      && |r.value.publicKeys| == |r.value.validators|
      && (forall k :: 0 <= k < |r.value.publicKeys| ==> r.value.publicKeys[k] == r.value.validators[k].nodePublicKey)
  {
    var publisher := gen(0);
    var out: seq<Dict> := [];
    var validators: seq<ValidatorKeys> := [];
    var publicKeys: seq<string> := [];
    var count := 0;
    for i := 0 to |configs|
      invariant count == ValidatorCount(configs, i)
      invariant |out| == i
      invariant forall j :: 0 <= j < i ==> "is_validator" in configs[j]
      invariant forall j :: 0 <= j < i ==> out[j] == Assigned(configs[j], KeysFor(configs, j, useUnl, gen), useUnl, publisher, sites)
      invariant DrawnSoFar(validators, publicKeys, count, useUnl, gen)
    {
      if "is_validator" !in configs[i] {
        return Err("is_validator");
      }
      var keys: Option<ValidatorKeys> := None;
      if Truthy(configs[i]["is_validator"]) {
        keys := Some(gen(Offset(useUnl) + count));
        DrawOne(validators, publicKeys, count, useUnl, gen);
        validators := validators + [keys.value];
        publicKeys := publicKeys + [keys.value.nodePublicKey];
        count := count + 1;
      }
      assert keys == KeysFor(configs, i, useUnl, gen);
      assert count == ValidatorCount(configs, i + 1);
      var config := AssignOne(configs[i], keys, useUnl, publisher, sites);
      out := out + [config];
    }
    r := Ok(Assignment(out, validators, publicKeys));
  }

  /** Validator configs gain their keys; every config gains `use_unl`, and with the UNL the publisher key. */
  lemma AssignedFields(c: Dict, keys: Option<ValidatorKeys>, useUnl: bool, publisher: ValidatorKeys, sites: Value)
    ensures var a := Assigned(c, keys, useUnl, publisher, sites);
      && a["use_unl"] == VBool(useUnl)
      && (keys.Some? ==> a["keys"] == KeysValue(keys.value))
      && (keys.None? && "keys" in c ==> a["keys"] == c["keys"])
      && (useUnl ==> a["validator_list_keys"] == VStr(publisher.masterPubkey) && a["validator_list_sites"] == sites)
      && a.Keys == c.Keys + {"use_unl"} + (if keys.Some? then {"keys"} else {})
                   + (if useUnl then {"validator_list_keys", "validator_list_sites"} else {})
      && forall k :: k in c && k !in {"keys", "use_unl", "validator_list_keys", "validator_list_sites"} ==> a[k] == c[k]
  {
  }

  /** Later configs have counted at least as many validators. */
  lemma {:induction false} ValidatorCountMonotonic(configs: seq<Dict>, i: nat, j: nat)
    requires i <= j <= |configs|
    ensures ValidatorCount(configs, i) <= ValidatorCount(configs, j)
    decreases j - i
  {
    if i < j {
      ValidatorCountMonotonic(configs, i, j - 1);
    }
  }

  /**
   * Validator `i` receives the draw at its rank among the validators, and
   * `validator_public_keys` holds that draw's node public key at that rank:
   * the list follows the config order. Different validators get different draws.
   */
  lemma PublicKeyOrder(configs: seq<Dict>, useUnl: bool, gen: nat -> ValidatorKeys, i: nat, j: nat)
    requires i < j < |configs| && IsValidatorCfg(configs[i]) && IsValidatorCfg(configs[j])
    ensures ValidatorCount(configs, i) < ValidatorCount(configs, j) < |Draws(configs, useUnl, gen)|
    ensures KeysFor(configs, i, useUnl, gen) == Some(Draws(configs, useUnl, gen)[ValidatorCount(configs, i)])
    ensures KeysFor(configs, j, useUnl, gen) == Some(Draws(configs, useUnl, gen)[ValidatorCount(configs, j)])
  {
    ValidatorCountMonotonic(configs, i + 1, j);
    ValidatorCountMonotonic(configs, j + 1, |configs|);
  }

  /** With the UNL in use the publisher's draw is never a validator's: validators draw from 1 on. */
  lemma PublisherSeparate(configs: seq<Dict>, gen: nat -> ValidatorKeys, i: nat)
    requires i < |configs| && IsValidatorCfg(configs[i])
    ensures KeysFor(configs, i, true, gen) == Some(gen(1 + ValidatorCount(configs, i)))
  {
  }

  /** A config of `get_node_configs` as the dict `main` works on. */
  function CfgDict(c: NodeConfig.NodeCfg): Dict {
    map["name" := VStr(c.name),
        "peers" := VList(seq(|c.peers|, i requires 0 <= i < |c.peers| => VStr(c.peers[i]))),
        "peer_private" := VStr(c.peerPrivate),
        "is_validator" := VBool(c.isValidator)]
  }

  /** `[*node_configs["validators"], *node_configs["peers"]]`. */
  function AllConfigs(nc: NodeConfig.NodeConfigs): (all: seq<Dict>)
    ensures |all| == |nc.validators| + |nc.peers|
  {
    seq(|nc.validators| + |nc.peers|, i requires 0 <= i < |nc.validators| + |nc.peers| =>
      if i < |nc.validators| then CfgDict(nc.validators[i]) else CfgDict(nc.peers[i - |nc.validators|]))
  }

  /**
   * Validators come first in `all_configs`, so the i-th validator of the node
   * configs receives the i-th validator draw, and there are as many draws as
   * validators.
   */
  lemma {:induction false} ValidatorsFirst(nc: NodeConfig.NodeConfigs, i: nat)
    requires forall k :: 0 <= k < |nc.validators| ==> nc.validators[k].isValidator
    requires forall k :: 0 <= k < |nc.peers| ==> !nc.peers[k].isValidator
    requires i <= |nc.validators| + |nc.peers|
    ensures ValidatorCount(AllConfigs(nc), i) == if i <= |nc.validators| then i else |nc.validators|
  {
    if i > 0 {
      ValidatorsFirst(nc, i - 1);
      var all := AllConfigs(nc);
      if i - 1 < |nc.validators| {
        assert all[i - 1] == CfgDict(nc.validators[i - 1]);
        assert IsValidatorCfg(all[i - 1]);
      } else {
        assert all[i - 1] == CfgDict(nc.peers[i - 1 - |nc.validators|]);
        assert !IsValidatorCfg(all[i - 1]);
      }
    }
  }

  /** Every config of `get_node_configs` carries `is_validator`, so the loop never raises. */
  lemma AllConfigsHaveFlag(nc: NodeConfig.NodeConfigs)
    ensures forall i :: 0 <= i < |AllConfigs(nc)| ==> "is_validator" in AllConfigs(nc)[i]
  {
    var all := AllConfigs(nc);
    forall i | 0 <= i < |all| ensures "is_validator" in all[i] {
      if i < |nc.validators| {
        assert all[i] == CfgDict(nc.validators[i]);
      } else {
        assert all[i] == CfgDict(nc.peers[i - |nc.validators|]);
      }
    }
  }
}
