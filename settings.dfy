/**
 * The layered settings loader (prepare_workload/settings.py): the deep update
 * of a copy, nested assignment by key path, coercion of environment strings
 * to the type of the default, `GL_` environment parsing, and the precedence
 * defaults < settings.toml < environment < explicit overrides.
 */
module Settings {
  import opened Wrappers
  import opened Text
  import opened Values

  type Dict = map<string, Value>

  /** The exceptions `_set_in` can raise; `get_settings` adds its own TypeError. */
  datatype SetError =
    | IndexError      // `path[-1]` of an empty path
    | TypeError       // item assignment on a value that is not a dict; in `get_settings`, see `Buildable`
    | AttributeError  // `setdefault` on a value that is not a dict

  // ---------------------------------------------------------------------------
  // _deep_update

  /** One pass of the inner loop of `_deep_update`: every key of `up` merged into `out`. */
  method MergeInto(out: Dict, up: Dict) returns (r: Dict)
    ensures VDict(r) == Merge(VDict(out), VDict(up))
  {
    r := out;
    var rest := up.Keys;
    while rest != {}
      invariant rest <= up.Keys
      invariant forall k :: k in r <==> k in out || (k in up && k !in rest)
      invariant forall k :: k in r && k in up && k !in rest ==>
        r[k] == if k in out then Merge(out[k], up[k]) else up[k]
      invariant forall k :: k in r && (k !in up || k in rest) ==> r[k] == out[k]
      decreases rest
    {
      var k :| k in rest;
      var v := up[k];
      if v.VDict? && k in r && r[k].VDict? {
        r := r[k := Merge(r[k], v)];
      } else {
        r := r[k := v];
      }
      rest := rest - {k};
    }
    assert r == Merge(VDict(out), VDict(up)).d;
  }

  /**
   * `_deep_update(base, *updates)`: a copy of `base` with each update merged
   * in turn, skipping `None` and empty updates. `base` itself is a value here,
   * so it is left as it was.
   */
  method DeepUpdate(base: Dict, updates: seq<Option<Dict>>) returns (out: Dict)
    ensures VDict(out) == MergeAll(VDict(base), updates)
  {
    out := base;
    for i := 0 to |updates|
      invariant VDict(out) == MergeAll(VDict(base), updates[..i])
    {
      assert updates[..i + 1][..i] == updates[..i];
      if updates[i].Some? {
        out := MergeInto(out, updates[i].value);
      }
    }
    assert updates[..|updates|] == updates;
  }

  // ---------------------------------------------------------------------------
  // _set_in

  /**
   * `_set_in(d, path, value)`: walk `path[:-1]` with `setdefault(p, {})`, then
   * assign the last key; the result is the updated dict or the exception raised.
   */
  function SetIn(d: Dict, path: seq<string>, v: Value): (r: Result<Dict, SetError>)
    ensures |path| == 0 ==> r == Err(IndexError)
    ensures |path| == 1 ==> r.Ok? && path[0] in r.value && r.value[path[0]] == v
    ensures r.Ok? ==> r.value.Keys == d.Keys + {path[0]}
    ensures r.Ok? ==> forall k :: k in d && k != path[0] ==> r.value[k] == d[k]
    decreases |path|
  {
    if |path| == 0 then Err(IndexError)
    else if |path| == 1 then Ok(d[path[0] := v])
    else
      var p := path[0];
      var next := if p in d then d[p] else VDict(map[]);
      if next.VDict? then
        match SetIn(next.d, path[1..], v)
        case Ok(sub) => Ok(d[p := VDict(sub)])
        case Err(e) => Err(e)
      else if |path| == 2 then Err(TypeError)
      else Err(AttributeError)
  }

  /** Every value met along `prefix` from `v` is a dict (or the walk leaves the existing values). */
  predicate Writable(v: Value, prefix: seq<string>) {
    v.VDict? && (|prefix| == 0 || prefix[0] !in v.d || Writable(v.d[prefix[0]], prefix[1..]))
  }

  /** `q` and `path` part ways at some key. */
  predicate Diverges(q: seq<string>, path: seq<string>) {
    |q| > 0 && |path| > 0 && (q[0] != path[0] || Diverges(q[1..], path[1..]))
  }

  /** `_set_in` succeeds exactly when the path is non-empty and nothing along it but the last key is a non-dict. */
  lemma {:induction false} SetInSucceeds(d: Dict, path: seq<string>, v: Value)
    ensures SetIn(d, path, v).Ok? <==> |path| > 0 && Writable(VDict(d), path[..|path| - 1])
    decreases |path|
  {
    if |path| > 1 {
      var p := path[0];
      assert path[..|path| - 1][1..] == path[1..][..|path| - 2];
      if p in d && d[p].VDict? {
        SetInSucceeds(d[p].d, path[1..], v);
      } else if p !in d {
        SetInSucceeds(map[], path[1..], v);
      }
    }
  }

  /** After `_set_in`, `value` is at `path`. */
  lemma {:induction false} SetInStores(d: Dict, path: seq<string>, v: Value)
    requires SetIn(d, path, v).Ok?
    ensures Lookup(VDict(SetIn(d, path, v).value), path) == Some(v)
    decreases |path|
  {
    if |path| > 1 {
      var p := path[0];
      var next := if p in d then d[p] else VDict(map[]);
      SetInStores(next.d, path[1..], v);
    }
  }

  /** `_set_in` leaves every path that parts from `path` as it was, and adds at most `path[0]` at the top. */
  lemma {:induction false} SetInOthers(d: Dict, path: seq<string>, v: Value, q: seq<string>)
    requires SetIn(d, path, v).Ok?
    requires Diverges(q, path)
    ensures Lookup(VDict(SetIn(d, path, v).value), q) == Lookup(VDict(d), q)
    ensures SetIn(d, path, v).value.Keys == d.Keys + {path[0]}
    decreases |path|
  {
    var p := path[0];
    if |path| > 1 && q[0] == p {
      var next := if p in d then d[p] else VDict(map[]);
      SetInOthers(next.d, path[1..], v, q[1..]);
      if p !in d {
        EmptyLookup(q[1..]);
      }
    }
  }

  lemma EmptyLookup(q: seq<string>)
    requires |q| > 0
    ensures Lookup(VDict(map[]), q) == None
  {
  }

  // ---------------------------------------------------------------------------
  // _coerce_like

  /** The words a boolean default accepts as true. */
  predicate TrueWord(s: string) {
    s in {"1", "true", "yes", "on"}
  }

  /**
   * `_coerce_like(example, s)`: a boolean default turns `s` into a boolean (it
   * comes before the integer case), an integer default into the parsed
   * integer when `s` parses, everything else keeps the string.
   */
  function Coerce(example: Value, s: string): (r: Value)
    ensures example.VBool? ==> r.VBool?
    ensures !example.VBool? && !example.VInt? ==> r == VStr(s)
  {
    match example
    case VBool(_) => VBool(TrueWord(Lower(s)))
    case VInt(_) => (if ParseInt(s).Some? then VInt(ParseInt(s).value) else VStr(s))
    case _ => VStr(s)
  }

  /** With a boolean default the result is true exactly for the four words, in any letter case. */
  lemma CoerceBool(b: bool, s: string)
    ensures Coerce(VBool(b), s) == VBool(true) <==> Lower(s) in {"1", "true", "yes", "on"}
    ensures Coerce(VBool(b), s) == VBool(false) <==> Lower(s) !in {"1", "true", "yes", "on"}
  {
  }

  lemma CoerceBoolExamples()
    ensures Coerce(VBool(false), "YES") == VBool(true)
    ensures Coerce(VBool(true), "off") == VBool(false)
    ensures Coerce(VBool(true), "5") == VBool(false)
  {
    assert Lower("YES") == "yes";
    assert Lower("off") == "off";
    assert Lower("5") == "5";
  }

  /** With an integer default a printed integer comes back as that integer. */
  lemma CoerceIntRoundTrip(e: int, n: int)
    ensures Coerce(VInt(e), IntToString(n)) == VInt(n)
  {
    ParseIntOfString(n);
  }

  /** With an integer default, a string that does not parse is kept. */
  lemma CoerceIntFallback(e: int, s: string)
    requires ParseInt(s).None?
    ensures Coerce(VInt(e), s) == VStr(s)
  {
  }

  // ---------------------------------------------------------------------------
  // _parse_env

  const Prefix: string := "GL_"

  /** `[p.lower() for p in key.split("__") if p]`. */
  function KeyParts(parts: seq<string>): (r: seq<string>)
    ensures forall p :: p in r ==> |p| > 0
    ensures |r| <= |parts|
  {
    if |parts| == 0 then []
    else
      var rest := KeyParts(parts[..|parts| - 1]);
      var p := parts[|parts| - 1];
      if |p| > 0 then rest + [Lower(p)] else rest
  }

  /** The key path of an environment name, after the `GL_` prefix. */
  function EnvPath(name: string): seq<string>
    requires StartsWith(name, Prefix)
  {
    KeyParts(SplitSep(name[|Prefix|..]))
  }

  /** What `_parse_env` stores for `raw` at `parts`: coerced like the default there, if there is one. */
  function EnvValue(defaults: Dict, parts: seq<string>, raw: string): Value {
    match Lookup(VDict(defaults), parts)
    case Some(ex) => if ex.VNone? then VStr(raw) else Coerce(ex, raw)
    case None => VStr(raw)
  }

  /** `_parse_env` over the environment's `(name, value)` pairs in order: the dict built, or the exception raised. */
  function ParseEnvSpec(defaults: Dict, env: seq<(string, string)>): (r: Result<Dict, SetError>)
    ensures (forall i :: 0 <= i < |env| ==> !StartsWith(env[i].0, Prefix)) ==> r == Ok(map[])
    ensures r.Err? ==> exists i :: 0 <= i < |env| && StartsWith(env[i].0, Prefix)
  {
    if |env| == 0 then Ok(map[])
    else
      match ParseEnvSpec(defaults, env[..|env| - 1])
      case Err(e) => Err(e)
      case Ok(out) =>
        var (name, raw) := env[|env| - 1];
        if !StartsWith(name, Prefix) then Ok(out)
        else
          var parts := EnvPath(name);
          SetIn(out, parts, EnvValue(defaults, parts, raw))
  }

  method ParseEnv(defaults: Dict, env: seq<(string, string)>) returns (r: Result<Dict, SetError>)
    ensures r == ParseEnvSpec(defaults, env)
  {
    var out: Dict := map[];
    for i := 0 to |env|
      invariant ParseEnvSpec(defaults, env[..i]) == Ok(out)
    {
      assert env[..i + 1][..i] == env[..i];
      var (name, raw) := env[i];
      if !StartsWith(name, Prefix) {
        continue;
      }
      var key := name[|Prefix|..];
      var parts := KeyParts(SplitSep(key));
      var ex := Lookup(VDict(defaults), parts);
      var coerced := if ex.Some? && !ex.value.VNone? then Coerce(ex.value, raw) else VStr(raw);
      var step := SetIn(out, parts, coerced);
      if step.Err? {
        assert ParseEnvSpec(defaults, env[..i + 1]) == Err(step.error);
        assert env[..i + 1] <= env;
        PrefixErrorPersists(defaults, env, i + 1);
        return Err(step.error);
      }
      out := step.value;
    }
    assert env[..|env|] == env;
    r := Ok(out);
  }

  /** Once `_parse_env` raises on some entry, it raises that on the whole environment. */
  lemma {:induction false} PrefixErrorPersists(defaults: Dict, env: seq<(string, string)>, i: nat)
    requires i <= |env| && ParseEnvSpec(defaults, env[..i]).Err?
    ensures ParseEnvSpec(defaults, env) == ParseEnvSpec(defaults, env[..i])
    decreases |env| - i
  {
    if i < |env| {
      assert env[..i + 1][..i] == env[..i];
      PrefixErrorPersists(defaults, env, i + 1);
    } else {
      assert env[..i] == env;
    }
  }

  /** Only the `GL_` entries of the environment matter. */
  function OnlyPrefixed(env: seq<(string, string)>): (r: seq<(string, string)>)
    ensures forall e :: e in r ==> e in env && StartsWith(e.0, Prefix)
  {
    if |env| == 0 then []
    else
      var rest := OnlyPrefixed(env[..|env| - 1]);
      if StartsWith(env[|env| - 1].0, Prefix) then rest + [env[|env| - 1]] else rest
  }

  lemma {:induction false} ParseEnvIgnoresOthers(defaults: Dict, env: seq<(string, string)>)
    ensures ParseEnvSpec(defaults, env) == ParseEnvSpec(defaults, OnlyPrefixed(env))
  {
    if |env| > 0 {
      var n := |env| - 1;
      ParseEnvIgnoresOthers(defaults, env[..n]);
      if StartsWith(env[n].0, Prefix) {
        assert (OnlyPrefixed(env[..n]) + [env[n]])[..|OnlyPrefixed(env[..n])|] == OnlyPrefixed(env[..n]);
      }
    }
  }

  /** A key-path part as `_parse_env` produces it: non-empty, lower-case, without "__". */
  predicate CleanPart(p: string) {
    |p| > 0 && (forall j :: 0 <= j < |p| ==> !('A' <= p[j] <= 'Z')) && forall j :: 0 <= j < |p| ==> !HasSepAt(p, j)
  }

  /** Lower-casing keeps "__" where it was and removes every upper-case letter. */
  lemma LowerClean(q: string)
    requires |q| > 0 && forall j :: 0 <= j ==> !HasSepAt(q, j)
    ensures CleanPart(Lower(q))
  {
    var l := Lower(q);
    forall j | 0 <= j < |l| ensures !HasSepAt(l, j) {
      if j + 1 < |l| {
        assert !HasSepAt(q, j);
        assert l[j] == LowerChar(q[j]) && l[j + 1] == LowerChar(q[j + 1]);
      }
    }
  }

  lemma {:induction false} KeyPartsClean(parts: seq<string>)
    requires forall q, j :: q in parts && 0 <= j ==> !HasSepAt(q, j)
    ensures forall p :: p in KeyParts(parts) ==> CleanPart(p)
  {
    if |parts| > 0 {
      var n := |parts| - 1;
      assert forall q :: q in parts[..n] ==> q in parts;
      KeyPartsClean(parts[..n]);
      if |parts[n]| > 0 {
        LowerClean(parts[n]);
      }
    }
  }

  /** Every part of an environment key path is non-empty, lower-case and holds no "__". */
  lemma EnvPathParts(name: string)
    requires StartsWith(name, Prefix)
    ensures forall p :: p in EnvPath(name) ==> CleanPart(p)
  {
    SplitSepPartsHaveNoSep(name[|Prefix|..]);
    KeyPartsClean(SplitSep(name[|Prefix|..]));
  }

  /** The last `GL_` entry's value sits at its key path afterwards, coerced like its default. */
  lemma LastEntryStored(defaults: Dict, env: seq<(string, string)>, name: string, raw: string)
    requires StartsWith(name, Prefix)
    requires ParseEnvSpec(defaults, env + [(name, raw)]).Ok?
    ensures Lookup(VDict(ParseEnvSpec(defaults, env + [(name, raw)]).value), EnvPath(name))
            == Some(EnvValue(defaults, EnvPath(name), raw))
  {
    var e := env + [(name, raw)];
    assert e[..|e| - 1] == env;
    var out := ParseEnvSpec(defaults, env).value;
    SetInStores(out, EnvPath(name), EnvValue(defaults, EnvPath(name), raw));
  }

  // ---------------------------------------------------------------------------
  // get_settings

  /** The built-in defaults of `get_settings`. */
  function Defaults(): Dict {
    map[
      "templates_dir" := VStr("templates"),
      "testnet_dir" := VStr("testnet"),
      "network_filename" := VStr("network.toml"),
      "config_dir" := VStr("volumes"),
      "unl_file" := VStr("unl.json"),
      "compose_yml_file" := VStr("compose.yml"),
      "node_config_template" := VStr("rippled.cfg.mako"),
      "node_config_file" := VStr("rippled.cfg"),
      "compose_template" := VStr("compose.yml.mako"),
      "network" := VDict(map[
        "network_dir_name" := VStr("testnet"),
        "num_validators" := VInt(5),
        "num_peers" := VInt(1),
        "use_unl" := VBool(true),
        "validator_list_sites" := VStr("http://unl"),
        "validator_name" := VStr("val"),
        "peer_name" := VStr("rippled")]),
      "node_config" := VDict(map[
        "ports" := VDict(map[
          "rpc_admin_local" := VInt(5005),
          "peer" := VInt(2459),
          "ws_admin_local" := VInt(6006)]),
        "voting" := VDict(map[
          "reference_fee" := VInt(10),
          "account_reserve" := VInt(1000000),
          "owner_reserve" := VInt(2000000)])]),
      "compose_config" := VDict(map[
        "image" := VStr("rippleci/rippled:latest"),
        "network_name" := VStr("xrpl_net")])
    ]
  }

  /** The merged configuration: defaults, then the settings file (`None` when absent), the environment, the overrides. */
  function Configure(file: Option<Dict>, env: seq<(string, string)>, overrides: Dict): (r: Result<Value, SetError>)
    ensures r.Err? <==> ParseEnvSpec(Defaults(), env).Err?
    ensures r.Ok? ==> r.value.VDict? && Defaults().Keys <= r.value.d.Keys
  {
    match ParseEnvSpec(Defaults(), env)
    case Err(e) => Err(e)
    case Ok(envCfg) => Ok(MergeAll(VDict(Defaults()), [file, Some(envCfg), Some(overrides)]))
  }

  /** The entries `get_settings` joins onto a `Path`; `/` raises TypeError unless the value is a str. */
  const PathKeys: seq<string> := ["templates_dir", "testnet_dir", "network_filename", "node_config_template", "compose_template"]

  /** The sections unpacked by `SimpleNamespace(**...)`, which raises TypeError unless the section is a dict. */
  const Sections: seq<string> := ["network", "node_config", "compose_config"]

  /**
   * Whether `get_settings` gets past its path joins and its three namespaces
   * (every one of these keys is in the defaults, so none can be missing).
   */
  predicate Buildable(cfg: Dict) {
    && (forall k :: k in PathKeys ==> k in cfg && cfg[k].VStr?)
    && (forall k :: k in Sections ==> k in cfg && cfg[k].VDict?)
  }

  /** The checks `get_settings` makes, in its order: the path joins, then the namespaces. */
  method CheckBuildable(cfg: Dict) returns (ok: bool)
    ensures ok == Buildable(cfg)
  {
    for i := 0 to |PathKeys|
      invariant forall j :: 0 <= j < i ==> PathKeys[j] in cfg && cfg[PathKeys[j]].VStr?
    {
      if PathKeys[i] !in cfg || !cfg[PathKeys[i]].VStr? {
        return false;
      }
    }
    for i := 0 to |Sections|
      invariant forall j :: 0 <= j < i ==> Sections[j] in cfg && cfg[Sections[j]].VDict?
    {
      if Sections[i] !in cfg || !cfg[Sections[i]].VDict? {
        return false;
      }
    }
    return true;
  }

  /**
   * `get_settings` up to the values it returns: the merged configuration, or
   * the exception raised while merging or while building the result. The path
   * values themselves are not computed.
   */
  function Loaded(file: Option<Dict>, env: seq<(string, string)>, overrides: Dict): (r: Result<Value, SetError>)
    ensures r.Err? <==> Configure(file, env, overrides).Err? || !Buildable(Configure(file, env, overrides).value.d)
    ensures Configure(file, env, overrides).Err? ==> r == Configure(file, env, overrides)
    ensures Configure(file, env, overrides).Ok? && r.Err? ==> r.error == TypeError
    ensures r.Ok? ==> r == Configure(file, env, overrides)
  {
    match Configure(file, env, overrides)
    case Err(e) => Err(e)
    case Ok(cfg) => if Buildable(cfg.d) then Ok(cfg) else Err(TypeError)
  }

  method GetSettings(file: Option<Dict>, env: seq<(string, string)>, overrides: Dict) returns (r: Result<Value, SetError>)
    ensures r == Loaded(file, env, overrides)
    ensures r.Ok? ==> r.value.VDict? && Buildable(r.value.d)
  {
    var envCfg := ParseEnv(Defaults(), env);
    if envCfg.Err? {
      return Err(envCfg.error);
    }
    var cfg := DeepUpdate(Defaults(), [file, Some(envCfg.value), Some(overrides)]);
    var ok := CheckBuildable(cfg);
    if !ok {
      return Err(TypeError);
    }
    r := Ok(VDict(cfg));
  }

  /**
   * A section the overrides replace by a non-dict, such as `network="5"`,
   * makes `get_settings` raise TypeError at `SimpleNamespace(**...)`.
   */
  lemma ScalarSectionRaises(file: Option<Dict>, env: seq<(string, string)>, overrides: Dict, s: string)
    requires s in Sections && s in overrides && !overrides[s].VDict?
    requires ParseEnvSpec(Defaults(), env).Ok?
    ensures Loaded(file, env, overrides) == Err(TypeError)
  {
    var envCfg := ParseEnvSpec(Defaults(), env).value;
    LastLeafWins(VDict(Defaults()), [file, Some(envCfg), Some(overrides)], 2, [s], overrides[s]);
  }

  /**
   * Precedence: a leaf at `path` in the overrides wins; failing that, one from
   * the environment; failing that, one from the settings file; and when none of
   * them says anything about `path`, the default stands.
   */
  lemma Precedence(file: Option<Dict>, env: seq<(string, string)>, overrides: Dict, path: seq<string>, x: Value)
    requires Configure(file, env, overrides).Ok? && !x.VDict?
    ensures var cfg := Configure(file, env, overrides).value;
      var envCfg := ParseEnvSpec(Defaults(), env).value;
      && (Lookup(VDict(overrides), path) == Some(x) ==> Lookup(cfg, path) == Some(x))
      && (Untouched(VDict(overrides), path) && Lookup(VDict(envCfg), path) == Some(x) ==> Lookup(cfg, path) == Some(x))
      && ((Untouched(VDict(overrides), path) && Untouched(VDict(envCfg), path) &&
           file.Some? && Lookup(VDict(file.value), path) == Some(x)) ==> Lookup(cfg, path) == Some(x))
      && ((Untouched(VDict(overrides), path) && Untouched(VDict(envCfg), path) && Silent(file, path)) ==>
          Lookup(cfg, path) == Lookup(VDict(Defaults()), path))
  {
    ThreeLayers(VDict(Defaults()), file, ParseEnvSpec(Defaults(), env).value, overrides, path, x);
  }

  /** `Precedence` over any base: the settings file, then the environment, then the overrides. */
  lemma ThreeLayers(base: Value, file: Option<Dict>, envCfg: Dict, overrides: Dict, path: seq<string>, x: Value)
    requires !x.VDict?
    ensures var cfg := MergeAll(base, [file, Some(envCfg), Some(overrides)]);
      && (Lookup(VDict(overrides), path) == Some(x) ==> Lookup(cfg, path) == Some(x))
      && (Untouched(VDict(overrides), path) && Lookup(VDict(envCfg), path) == Some(x) ==> Lookup(cfg, path) == Some(x))
      && ((Untouched(VDict(overrides), path) && Untouched(VDict(envCfg), path) &&
           file.Some? && Lookup(VDict(file.value), path) == Some(x)) ==> Lookup(cfg, path) == Some(x))
      && ((Untouched(VDict(overrides), path) && Untouched(VDict(envCfg), path) && Silent(file, path)) ==>
          Lookup(cfg, path) == Lookup(base, path))
  {
    var layers := [file, Some(envCfg), Some(overrides)];
    if Lookup(VDict(overrides), path) == Some(x) {
      LastLeafWins(base, layers, 2, path, x);
    }
    if Untouched(VDict(overrides), path) && Lookup(VDict(envCfg), path) == Some(x) {
      LastLeafWins(base, layers, 1, path, x);
    }
    if Untouched(VDict(overrides), path) && Untouched(VDict(envCfg), path) {
      if file.Some? && Lookup(VDict(file.value), path) == Some(x) {
        LastLeafWins(base, layers, 0, path, x);
      }
      if Silent(file, path) {
        BaseKept(base, layers, path);
      }
    }
  }

  /** With no file, no `GL_` variables and no overrides, the configuration is the defaults. */
  lemma DefaultsOnly()
    ensures Configure(None, [], map[]) == Ok(VDict(Defaults()))
  {
    var base := VDict(Defaults());
    var layers: seq<Option<Dict>> := [None, Some(map[]), Some(map[])];
    MergeEmpty(Defaults());
    assert layers[..1][..0] == [] && layers[..2][..1] == layers[..1] && layers[..3] == layers;
    assert MergeAll(base, layers[..1]) == base;
    assert MergeAll(base, layers[..2]) == base;
  }

  /** A part without underscores, "__", and a part without "__" split into those two parts. */
  lemma SplitTwo(a: string, b: string)
    requires forall j :: 0 <= j < |a| ==> a[j] != '_'
    requires forall j :: 0 <= j < |b| ==> !HasSepAt(b, j)
    ensures SplitSep(a + "__" + b) == [a, b]
  {
    var s := a + "__" + b;
    forall j | 0 <= j < |a| ensures !HasSepAt(s, j) {
      assert s[j] == a[j];
    }
    assert s[|a|] == '_' && s[|a| + 1] == '_';
    FindSepFirst(s, 0, |a|);
    assert s[|a| + 2..] == b && s[..|a|] == a;
    FindSepAbsent(b, 0);
  }

  lemma NoUnderscoreNetwork(a: string)
    requires a == "NETWORK"
    ensures forall j :: 0 <= j < |a| ==> a[j] != '_'
  {
  }

  lemma NoSepNumValidators(b: string)
    requires b == "NUM_VALIDATORS"
    ensures forall j :: 0 <= j < |b| ==> !HasSepAt(b, j)
  {
    forall j | 0 <= j < |b| ensures !HasSepAt(b, j) {
      if j != 3 {
        assert b[j] != '_';
      }
    }
  }

  /** The key "GL_NETWORK__NUM_VALIDATORS" splits into `["NETWORK", "NUM_VALIDATORS"]`. */
  lemma SplitNumValidators()
    ensures SplitSep("GL_NETWORK__NUM_VALIDATORS"[|Prefix|..]) == ["NETWORK", "NUM_VALIDATORS"]
  {
    var a, b := "NETWORK", "NUM_VALIDATORS";
    var key := a + "__" + b;
    assert "GL_NETWORK__NUM_VALIDATORS" == Prefix + key;
    assert (Prefix + key)[|Prefix|..] == key;
    NoUnderscoreNetwork(a);
    NoSepNumValidators(b);
    SplitTwo(a, b);
  }

  lemma LowerNetwork()
    ensures Lower("NETWORK") == "network"
  {
    var a := Lower("NETWORK");
    assert forall i :: 0 <= i < 7 ==> a[i] == "network"[i];
  }

  lemma LowerNumValidators()
    ensures Lower("NUM_VALIDATORS") == "num_validators"
  {
    var b := Lower("NUM_VALIDATORS");
    assert forall i :: 0 <= i < 14 ==> b[i] == "num_validators"[i];
  }

  /** ... and its key path is `["network", "num_validators"]`. */
  lemma EnvPathNumValidators()
    ensures EnvPath("GL_NETWORK__NUM_VALIDATORS") == ["network", "num_validators"]
  {
    SplitNumValidators();
    LowerNetwork();
    LowerNumValidators();
    var parts := ["NETWORK", "NUM_VALIDATORS"];
    assert parts[..1] == ["NETWORK"] && parts[..1][..0] == [];
    assert KeyParts(parts[..1]) == ["network"];
  }

  lemma DefaultNumValidators()
    ensures Lookup(VDict(Defaults()), ["network", "num_validators"]) == Some(VInt(5))
  {
  }

  lemma EnvValueSeven()
    ensures EnvValue(Defaults(), ["network", "num_validators"], "7") == VInt(7)
  {
    DefaultNumValidators();
    assert ParseInt("7") == Some(7);
  }

  lemma SetInSeven()
    ensures SetIn(map[], ["network", "num_validators"], VInt(7)) == Ok(map["network" := VDict(map["num_validators" := VInt(7)])])
  {
  }

  /** `GL_NETWORK__NUM_VALIDATORS=7` is read as the integer 7 under `network`. */
  lemma NumValidatorsFromEnv()
    ensures ParseEnvSpec(Defaults(), [("GL_NETWORK__NUM_VALIDATORS", "7")])
            == Ok(map["network" := VDict(map["num_validators" := VInt(7)])])
  {
    var env := [("GL_NETWORK__NUM_VALIDATORS", "7")];
    assert env[..0] == [];
    assert StartsWith("GL_NETWORK__NUM_VALIDATORS", Prefix);
    EnvPathNumValidators();
    EnvValueSeven();
    SetInSeven();
  }
}
