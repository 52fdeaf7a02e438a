# rippled-workload core, modelled in Dafny

rippled-workload runs a small XRP Ledger test network under Docker and drives it with
a transaction workload. This project models the behaviour of its core logic and proves
properties of that model. The model covers these parts:

- **The validator health-check sidecar.** Each pass it polls every validator for its
  last validated ledger. It keeps a `(last index, pass of last change)` table and reports
  validators whose index has not moved for more than `tolerance` passes. It evaluates two
  "always" assertions on the counts. This is `Sidecar.HealthCheck`, a class with the table
  and the pass counter as fields.
- **The network preparation tool (`prepare-workload`).** It covers:
  - the edge list turned into a sorted node set and symmetric peer lists;
  - the full-mesh default network with zero-padded names;
  - the validator/peer split;
  - layered settings (deep merge, `GL_` environment parsing, coercion, precedence);
  - the compose service records with their host-port assignment;
  - the command-line overrides;
  - each node's config data and the loop that hands out validator keys;
  - the amendment listing.
- **Workload helpers:**
  - the NFTokenID encoder, following the NFTokenID layout of the XRPL Non-Fungible
    Tokens standard (XLS-20);
  - the in-place deep update and `generate_txn` dispatch of the transaction factory;
  - trust-line bucketing;
  - the `rippled`/`xrpld` sync probes;
  - the "validators are closing ledgers" checks (the concurrent one and the sequential
    one in `utils.py`);
  - address shortening and currency text;
  - the account records.

Network replies, ledger readings, file contents, environment variables and key
generation are inputs. A method or function receives the value the call would have
produced, or the exception it would have raised.

The modules are:

| module | models |
|---|---|
| `Sidecar` | `sidecar/sidecar.py` |
| `NodeConfig`, `Formatting` | `prepare_workload/node_config.py`, `formatting.py` |
| `Settings`, `Values` | `prepare_workload/settings.py`, plus the deep merge that `txn_factory.py` shares |
| `TxnFactory` | `workload/txn_factory.py` |
| `RenderCompose` | `prepare_workload/compose/render_compose.py` |
| `PrepareMain` | `prepare-workload/main.py` |
| `Nft` | `encode_nft_id` of `workload/nft.py` |
| `Amendments` | `prepare_workload/amendments.py` |
| `Balances` | `get_account_tokens` of the volume copy of `balances.py` |
| `RippledSync`, `XrpldSync` | the two `check_*_sync_state.py` probes |
| `ValidatorsClosing` | `check_validators_closing.py` |
| `WorkloadUtils`, `VolumeUtils`, `Currency` | the two `utils.py` files and the currency text they share |
| `Models` | `workload/models.py` |

`Text`, `Order`, `Seqs` and `Wrappers` hold the Python string operations, `sorted`,
first-occurrence order and `Option`/`Result`.

## Model

| member | source | states |
|---|---|---|
| Sidecar.RunThread | sidecar/sidecar.py:28-40 | The thread's `_return` is the reply's `result`. After an HTTP, URL or timeout error it is a record with status "node not running", after any other exception one with status "exception". Neither error record counts as success. |
| Sidecar.EvaluatePolls | sidecar/sidecar.py:95-125 | The per-validator loop returns exactly the table, counts, stalled list and stall events of the reference fold `PassLoop`. The table keeps its keys, and every last-change pass stays within 0..pass. |
| Sidecar.PassLoopKeys | sidecar/sidecar.py:110-114 | A pass neither adds nor removes table entries. |
| Sidecar.HealthCheck.constructor | sidecar/sidecar.py:59-74 | Every configured validator starts at `(0, 0)`, no other key exists, and the pass counter is 0. |
| Sidecar.HealthCheck.Pass | sidecar/sidecar.py:76-138 | The counter rises by exactly 1. The new table and the report are those of `PassLoop` over the distinct servers at the new pass number. The report is flagged stopped exactly when the pass number equals `stop`. |
| Sidecar.HealthCheck.Run | sidecar/sidecar.py:76-140 | The final table and the list of reports are exactly the fold `Replay` over the passes run. Each pass runs the loop `PassLoop` from the previous table and appends that pass's report. Passes are numbered consecutively from the old counter. The loop runs up to and including pass `stop`, or until the supplied polls run out. Only the last report can be stopped, and it is stopped exactly when `stop` falls within the supply. |
| Sidecar.HealthCheck.RecordedPass | sidecar/sidecar.py:76-138 | One more pass extends the replay: the new table and the reports so far plus this pass's report are those of `Replay` over one more pass. |
| Sidecar.RunStep | sidecar/sidecar.py:79-131 | A pass that runs `PassLoop` from the replayed table and reports on it yields exactly the replay of one more pass. |
| Sidecar.ReplayKeys | sidecar/sidecar.py:95-125 | Replayed passes neither add nor remove table entries, and each pass adds exactly one report. |
| Sidecar.StepReport | sidecar/sidecar.py:79-131 | A pass appends one report. That report carries the pass number and the poll results, has `num_stalled <= num_reporting <=` the number polled, and is stopped exactly at pass `stop`. |
| Sidecar.LastReport | sidecar/sidecar.py:79-136 | The last report of a replay of `n` passes is the report of pass `from + n`, with the properties `StepReport` states. |
| Sidecar.ReplayReports | sidecar/sidecar.py:76-140 | After `n` replayed passes the table keeps its keys, there are `n` reports, and report `i` is the report of pass `from + i + 1` over the `i`-th poll results. |
| Sidecar.StallEventsMissed | sidecar/sidecar.py:118-124 | Each stall event names the stalled validator at the same position. Its `missed` count exceeds the tolerance, and its index is at least `min`. |
| Sidecar.StallEventsExact | sidecar/sidecar.py:106-124 | With distinct validators, each stall event carries the stalled validator's entry from the start of the pass. Its index is that entry's index, and `missed` is `update_num` minus the pass of that entry's last change. |
| Sidecar.AssertionsVerdict | sidecar/sidecar.py:129-131 | Nothing is asserted while no validator reports. Otherwise the two messages are "Validators are never stalled" and "ALL validators are never stalled". Both hold when nobody stalled (with some server configured), and at least one fails once somebody stalled. |
| Sidecar.FailureKeepsState | sidecar/sidecar.py:97-102 | About `Evaluate` and `StalledAt`: a result whose status is not "success" leaves the entry unchanged and is never a stall. |
| Sidecar.ChangeResets | sidecar/sidecar.py:110-114 | Any change of index, up or down, stores `(new index, current pass)` and is not a stall. |
| Sidecar.UnchangedStallRule | sidecar/sidecar.py:116-125 | About `Evaluate` and `StalledAt`: an unchanged index leaves the entry as it is. It is a stall iff `last change + tolerance < pass` and the stored index is at least `min`. |
| Sidecar.ToleranceNotExceeded | sidecar/sidecar.py:118 | Unchanged for exactly `tolerance` passes: not stalled. |
| Sidecar.ToleranceExceeded | sidecar/sidecar.py:118-120 | Unchanged for `tolerance + 1` passes: stalled iff the index is at least `min`. |
| Sidecar.StallPersists | sidecar/sidecar.py:116-125 | A stalled validator's entry is not rewritten, so it is stalled again on every later pass that reports the same index. |
| Sidecar.FirstSight | sidecar/sidecar.py:71-72 | The first success after start-up (pass 1, entry `(0, 0)`) is a stall iff it reports index 0, the tolerance is below 1 and `min` is at most 0. |
| Sidecar.PassTable | sidecar/sidecar.py:95-114 | About the loop `PassLoop` (one `Step` per validator): with distinct validators, each polled validator's new entry is `Evaluate` of its entry at the start of the pass, and unpolled entries stay as they were. |
| Sidecar.PassStalled | sidecar/sidecar.py:118-124 | About `PassLoop`: the stalled list is, in polling order, the validators whose start-of-pass entry meets the stall rule. |
| Sidecar.StalledOfMembers | sidecar/sidecar.py:118-124 | A validator is in the stalled list iff it was polled and meets the stall rule. |
| Sidecar.PassCounts | sidecar/sidecar.py:81-124 | About `PassLoop`: `num_reporting` is the number of successes. The stalled list has `num_stalled` entries, no duplicates and one event each. `0 <= num_stalled <= num_reporting <= validators polled`. |
| Sidecar.PassBoundedByServers | sidecar/sidecar.py:86-125 | Even with duplicate server names, `num_stalled <= num_reporting <= len(servers)`. |
| Sidecar.AssertionsOnlyWithReports | sidecar/sidecar.py:129-131 | About `Assertions`: both assertions are evaluated exactly when `num_reporting > 0`. The first holds iff nothing stalled; the second iff `num_stalled < len(servers)`. |
| Sidecar.AllReportingStalledYetSecondHolds | sidecar/sidecar.py:131 | With 3 servers, 2 reporting and both stalled, the second assertion still holds, because it compares with `len(servers)`. |
| Sidecar.StopZeroRunsForever | sidecar/sidecar.py:74 | With `stop = 0` no pass number ever matches, so every supplied pass runs. |
| Sidecar.StopAfterPass | sidecar/sidecar.py:136-138 | With `stop >= 1`, from a fresh start the loop ends right after pass `stop`. |
| Sidecar.ScenarioSecondPass | sidecar/sidecar.py:110-125 | Three validators, tolerance 1: on pass 2 one advances, two stay put, and nobody is stalled. |
| Sidecar.ScenarioThirdPass | sidecar/sidecar.py:110-131 | On pass 3 the two unchanged validators are stalled: the first assertion fails and the second holds. |
| NodeConfig.CollectEndpoints | prepare-workload/prepare_workload/node_config.py:17-19 | The `extend` loop yields `u, v` of each edge in order, `Endpoints(edges)`. |
| NodeConfig.EdgeEndpoints | prepare-workload/prepare_workload/node_config.py:18-19 | Both ends of every edge are collected. |
| NodeConfig.GetNodes | prepare-workload/prepare_workload/node_config.py:16-20 | The result is strictly sorted, so it is sorted with no duplicates. It holds exactly the edge endpoints. |
| NodeConfig.RemoveFirst | prepare-workload/prepare_workload/node_config.py:40 | `list.remove` drops one occurrence: multiset minus `{x}`. An absent element leaves the list unchanged. |
| NodeConfig.AppendEdges | prepare-workload/prepare_workload/node_config.py:27-35 | Keys are the collected nodes. Each list is the reference adjacency: per edge `(u, v)`, `v` for `u`, then `u` for `v`. |
| NodeConfig.RemoveSelfReferences | prepare-workload/prepare_workload/node_config.py:37-40 | Keys unchanged. Each list loses one occurrence of its own node. |
| NodeConfig.GetPeers | prepare-workload/prepare_workload/node_config.py:23-41 | Keys are the endpoints in first-occurrence order, and each list is `PeerList`. |
| NodeConfig.AdjacentCount | prepare-workload/prepare_workload/node_config.py:34-35 | For `u != v`, `v` occurs in `u`'s adjacency once per edge joining them, in either direction. |
| NodeConfig.AdjacentSelfCount | prepare-workload/prepare_workload/node_config.py:34-35 | A self-loop puts its node in its own list twice. |
| NodeConfig.EdgeCountSymmetric | prepare-workload/prepare_workload/node_config.py:31-35 | The number of edges between `u` and `v` is symmetric. |
| NodeConfig.PeersSymmetric | prepare-workload/prepare_workload/node_config.py:31-35 | For `u != v`: count of `v` in `peers[u]` = count of `u` in `peers[v]` = number of edges between them. |
| NodeConfig.SelfReferences | prepare-workload/prepare_workload/node_config.py:36-40 | With no self-loop a node does not list itself. With `k >= 1` self-loops it lists itself `2k - 1` times, once for a single self-loop. |
| NodeConfig.ValidatorNames | prepare-workload/prepare_workload/node_config.py:50 | `n_v` names (none for a non-positive count), the i-th being `validator_name + pad(i, n_v)`. |
| NodeConfig.PeerNames | prepare-workload/prepare_workload/node_config.py:51-54 | More than one peer gives `peer_name + pad(i, n_p)` for each i. Otherwise the single name `peer_name`. |
| NodeConfig.Without | prepare-workload/prepare_workload/node_config.py:56 | The filtered list holds exactly the elements other than `n`. |
| NodeConfig.LoadFile | prepare-workload/prepare_workload/node_config.py:58-66 | The file branch equals the reference `FileTopology`: KeyError without `edges`, `peers` unbound for an empty edge list, otherwise the table of `get_peers`. Keys and lists agree. |
| NodeConfig.FullMesh | prepare-workload/prepare_workload/node_config.py:46-56 | No private peers. The peer table has exactly the validator names and the peer names as keys, and the listed keys are the table's keys. |
| NodeConfig.FileTopology | prepare-workload/prepare_workload/node_config.py:58-66 | No `edges` gives an unbound `peers` (`MissingEdges`), and an empty edge list too (`PeersUnbound`). Otherwise the table's nodes are exactly the edge endpoints, and the listed keys are the table's keys. |
| NodeConfig.PeerTable | prepare-workload/prepare_workload/node_config.py:23-41 | The table `get_peers` builds is `PeerList` on exactly the endpoints. |
| NodeConfig.LoadTopology | prepare-workload/prepare_workload/node_config.py:44-66 | Equals `TopologyOf`: the full mesh without a file, the file's topology otherwise. |
| NodeConfig.Partition | prepare-workload/prepare_workload/node_config.py:68-80 | The validators list and the peers list are the node records selected by prefix, in key order. |
| NodeConfig.GetNodeConfigs | prepare-workload/prepare_workload/node_config.py:44-82 | Errors of the topology pass through. Otherwise the two lists are those of `Partition`. |
| NodeConfig.SelectCounts | prepare-workload/prepare_workload/node_config.py:77-80 | Every node lands in exactly one list: the two lengths add up to the node count. |
| NodeConfig.SelectMembers | prepare-workload/prepare_workload/node_config.py:70-80 | A record is in the validators list iff its name starts with `validator_name`. It carries the node's peers and a `peer_private` of "true" or "false". |
| NodeConfig.SelectComplete | prepare-workload/prepare_workload/node_config.py:69-80 | Each node's record is in the list its name selects. |
| NodeConfig.FullMeshPeers | prepare-workload/prepare_workload/node_config.py:55-56 | In the default network a node's peers are all other nodes, sorted. |
| NodeConfig.NoPeersYieldsOne | prepare-workload/prepare_workload/node_config.py:53-54 | Asking for 0 or 1 peers still yields one peer, named `peer_name`. |
| NodeConfig.ValidatorNamesDistinct | prepare-workload/prepare_workload/node_config.py:50 | Default validator names are pairwise distinct and all of equal length. |
| NodeConfig.TopologyComplete | prepare-workload/prepare_workload/node_config.py:60-66 | The peer table has as many keys as `get_nodes` has nodes, so the "doesn't fully define" log never fires. |
| Formatting.PadNonNegative | prepare-workload/prepare_workload/formatting.py:1-3 | For `i >= 0` the result is zeros followed by `str(i)`, all digits, parses back to `i`, and is `max(len(str(i)), len(str(p)))` long. |
| Formatting.Pad | prepare-workload/prepare_workload/formatting.py:1-3 | The padded text is as wide as the wider of `str(i)` and `str(p)`. |
| Formatting.PadWideEnough | prepare-workload/prepare_workload/formatting.py:3 | When `str(i)` is at least as wide as `str(p)` the result is `str(i)`. |
| Formatting.PadUniformWidth | prepare-workload/prepare_workload/formatting.py:2-3 | For `0 <= i, j < p` both results have the width of `str(p)`. |
| Formatting.PadInjective | prepare-workload/prepare_workload/formatting.py:2-3 | Different non-negative numbers padded against the same `p` differ. |
| Formatting.PadNegative | prepare-workload/prepare_workload/formatting.py:3 | A negative number keeps its sign before the zeros, as `zfill` does. |
| Values.Merge | prepare-workload/prepare_workload/settings.py:26-30 | Two dicts merge to the union of their keys. A non-dict update replaces the base. |
| Values.MergeAll | prepare-workload/prepare_workload/settings.py:23-31 | Folding layers over a dict gives a dict. |
| Values.UpdateWins | prepare-workload/prepare_workload/settings.py:25-30 | A leaf the update holds at a path is what the merge holds there, whatever the base was. |
| Values.KeptWhenUntouched | prepare-workload/prepare_workload/settings.py:24-31 | Where the update says nothing, the merge holds the base's value. |
| Values.MergeSelf | workload/src/workload/txn_factory.py:21-28 | Merging a value with itself changes nothing. |
| Values.MergeIdempotent | workload/src/workload/txn_factory.py:21-28 | Applying the same update twice equals applying it once. |
| Values.MergeEmpty | prepare-workload/prepare_workload/settings.py:26 | An empty update leaves a dict unchanged. |
| Values.LastLeafWins | prepare-workload/prepare_workload/settings.py:25-30 | Of all layers, the last one holding a leaf at a path decides it. |
| Values.BaseKept | prepare-workload/prepare_workload/settings.py:24-31 | If no layer mentions a path, the base value stands. |
| Settings.MergeInto | prepare-workload/prepare_workload/settings.py:26-30 | The inner loop's result is the deep merge `Merge(out, up)`. |
| Settings.DeepUpdate | prepare-workload/prepare_workload/settings.py:23-31 | `_deep_update` returns `MergeAll(base, updates)`, skipping `None` and empty layers. `base` is a value, so it is unchanged. |
| Settings.SetInSucceeds | prepare-workload/prepare_workload/settings.py:34-38 | `_set_in` succeeds iff the path is non-empty and every existing value along `path[:-1]` is a dict. |
| Settings.SetInStores | prepare-workload/prepare_workload/settings.py:34-38 | Afterwards the value sits at the path. |
| Settings.SetInOthers | prepare-workload/prepare_workload/settings.py:34-38 | Every path that parts from `path` is unchanged. Top-level keys gain at most `path[0]`. |
| Settings.SetIn | prepare-workload/prepare_workload/settings.py:34-38 | An empty path raises IndexError. A one-element path stores the value under that key. A successful call adds the path's first key and leaves every other key as it was. |
| Settings.Coerce | prepare-workload/prepare_workload/settings.py:41-54 | A bool default gives a bool. A default that is neither bool nor int keeps the string. |
| Settings.CoerceBool | prepare-workload/prepare_workload/settings.py:42-43 | With a bool default the result is True iff `s.lower()` is one of "1", "true", "yes", "on", and False otherwise. The bool test comes before the int test. |
| Settings.CoerceBoolExamples | prepare-workload/prepare_workload/settings.py:42-43 | "YES" gives True; "off" and "5" give False. |
| Settings.CoerceIntRoundTrip | prepare-workload/prepare_workload/settings.py:44-46 | With an int default, `str(n)` coerces back to `n`. |
| Settings.CoerceIntFallback | prepare-workload/prepare_workload/settings.py:44-48 | With an int default, an unparsable string is returned unchanged. |
| Settings.KeyParts | prepare-workload/prepare_workload/settings.py:64 | Empty parts are dropped, so no part is empty and there are no more parts than pieces. |
| Settings.ParseEnv | prepare-workload/prepare_workload/settings.py:57-71 | The loop equals the reference fold `ParseEnvSpec` over the `(name, value)` pairs. |
| Settings.ParseEnvSpec | prepare-workload/prepare_workload/settings.py:57-71 | With no `GL_` variable the result is the empty dict. A failure needs some `GL_` variable. |
| Settings.Configure | prepare-workload/prepare_workload/settings.py:115-118 | The layered configuration fails exactly when the environment parsing fails, and is otherwise a dict. |
| Settings.PrefixErrorPersists | prepare-workload/prepare_workload/settings.py:60-70 | Once one entry raises, the whole parse raises that error. |
| Settings.OnlyPrefixed | prepare-workload/prepare_workload/settings.py:61-62 | The kept entries are the environment entries starting with "GL_". |
| Settings.ParseEnvIgnoresOthers | prepare-workload/prepare_workload/settings.py:60-62 | Entries without the "GL_" prefix do not affect the result. |
| Settings.KeyPartsClean | prepare-workload/prepare_workload/settings.py:64 | Every part is non-empty, lower-case and without "__". |
| Settings.EnvPathParts | prepare-workload/prepare_workload/settings.py:63-64 | The key path of any environment name consists of clean parts. |
| Settings.LastEntryStored | prepare-workload/prepare_workload/settings.py:66-70 | The last `GL_` entry's value is at its key path afterwards, coerced like the default found there, or kept as a string when there is none. |
| Settings.Buildable | prepare-workload/prepare_workload/settings.py:123-127 | Holds when the five path entries are strings and the three sections are dicts, which is what the path joins and `SimpleNamespace(**...)` accept. |
| Settings.CheckBuildable | prepare-workload/prepare_workload/settings.py:121-147 | Checks the path entries, then the sections, and answers exactly `Buildable`. |
| Settings.Loaded | prepare-workload/prepare_workload/settings.py:74-147 | Environment errors pass through. Otherwise the result is TypeError exactly when the merged configuration is not `Buildable`, and the merged configuration when it is. |
| Settings.GetSettings | prepare-workload/prepare_workload/settings.py:74-147 | The loops compute `Loaded`. On success the value is a dict that is `Buildable`. |
| Settings.ScalarSectionRaises | prepare-workload/prepare_workload/settings.py:144-146 | An override that replaces `network`, `node_config` or `compose_config` by a non-dict (such as the string "5") makes `get_settings` raise TypeError. |
| Settings.Precedence | prepare-workload/prepare_workload/settings.py:115-118 | Overrides beat the environment, which beats settings.toml, which beats the defaults. A layer that is silent on a path defers to the next. |
| Settings.ThreeLayers | prepare-workload/prepare_workload/settings.py:115-118 | For a leaf at a path: an override wins; else an environment value wins; else a file value wins; else the default stays. |
| Settings.DefaultsOnly | prepare-workload/prepare_workload/settings.py:75-118 | No file, no `GL_` variables and no overrides give the built-in defaults. |
| Settings.DefaultNumValidators | prepare-workload/prepare_workload/settings.py:86-88 | The default `network.num_validators` is 5. |
| Settings.EnvPathNumValidators | prepare-workload/prepare_workload/settings.py:63-64 | "GL_NETWORK__NUM_VALIDATORS" maps to the path `["network", "num_validators"]`. |
| Settings.NumValidatorsFromEnv | prepare-workload/prepare_workload/settings.py:57-71 | `GL_NETWORK__NUM_VALIDATORS=7` parses to `{"network": {"num_validators": 7}}`, an int, because the default there is an int. |
| TxnFactory.DeepUpdate | workload/src/workload/txn_factory.py:21-28 | The updated `base` is `Merge(base, override)`. |
| TxnFactory.OverrideLeafWins | workload/src/workload/txn_factory.py:26-27 | Each non-dict override value is what its key holds afterwards. |
| TxnFactory.UnmentionedKept | workload/src/workload/txn_factory.py:23-28 | Keys the override does not mention keep their values. |
| TxnFactory.NestedMerge | workload/src/workload/txn_factory.py:24-27 | A dict on both sides merges key by key. A dict over a non-dict replaces it. |
| TxnFactory.UpdateIdempotent | workload/src/workload/txn_factory.py:21-28 | The same override twice equals it once. |
| TxnFactory.NewContext | workload/src/workload/txn_factory.py:37-42 | `TxnContext(account)` has fee "10" and no addresses. |
| TxnFactory.GetAddress | workload/src/workload/txn_factory.py:43-44 | No address list gives TypeError and an empty one IndexError. Otherwise the result is a member of the list. |
| TxnFactory.AsciiHex | workload/src/workload/txn_factory.py:76 | Two hex characters per ASCII character. |
| TxnFactory.BuildPayment | workload/src/workload/txn_factory.py:46-54 | Fails exactly when there are no addresses to draw from. Otherwise the keys are TransactionType, Account, Fee and Destination, the type is "Payment", the account is the context's, and the destination is one of the addresses. |
| TxnFactory.BuildTrustSet | workload/src/workload/txn_factory.py:56-61 | Exactly TransactionType, Account and Fee, with the context's account and fee. |
| TxnFactory.BuildAccountSet | workload/src/workload/txn_factory.py:63-71 | Fails exactly when there are no addresses to draw from. Otherwise exactly Account, Fee and SetFlag: the context's account and fee and the drawn flag. |
| TxnFactory.BuildNFTokenMint | workload/src/workload/txn_factory.py:73-84 | Fails exactly when there are no addresses to draw from. Otherwise exactly Account, NFTokenTaxon, flags and memos: the context's account, taxon 0 and the transferable flag. |
| TxnFactory.Build | workload/src/workload/txn_factory.py:86-111 | A ValueError for exactly the types without a builder. Every built transaction carries the context's account. |
| TxnFactory.GenerateTxn | workload/src/workload/txn_factory.py:100-119 | A builder error passes through. Otherwise the builder's dict, deep-updated with the overrides, goes to `from_xrpl`. The result is the transaction it builds, or `None` when the conversion raises. |
| TxnFactory.UnsupportedIffUnknown | workload/src/workload/txn_factory.py:86-111 | ValueError is raised iff the type is not one of Payment, TrustSet, AccountSet, NFTokenMint. |
| TxnFactory.TrustSetExact | workload/src/workload/txn_factory.py:56-61 | A TrustSet always builds, with exactly the keys TransactionType = "TrustSet", Account and Fee from the context. |
| TxnFactory.DefaultFee | workload/src/workload/txn_factory.py:40 | With a default context the fee is "10". |
| TxnFactory.PaymentDestination | workload/src/workload/txn_factory.py:46-54 | A Payment's destination is one of the context's addresses. Without addresses, Payment, AccountSet and NFTokenMint all fail. |
| TxnFactory.GeneratedOverrideWins | workload/src/workload/txn_factory.py:113-114 | An override leaf replaces what the builder put at that key. |
| RenderCompose.ServiceOf | prepare-workload/prepare_workload/compose/render_compose.py:14-47 | Service name, container name and host name are all the node name. Ports are `base+idx:base` for both admin ports. The volume is `<volumes_path>/<name>:/opt/ripple/etc`. `is_validator` is present (and True) iff rendering a validator. |
| RenderCompose.Combine | prepare-workload/prepare_workload/compose/render_compose.py:78 | `{**node, **shared}` has the union of the keys. The shared value wins on a clash, and the node's value is kept elsewhere. |
| RenderCompose.Enumerate | prepare-workload/prepare_workload/compose/render_compose.py:77-86 | A successful enumeration has one result per node. |
| RenderCompose.EnumerateNodes | prepare-workload/prepare_workload/compose/render_compose.py:77-80 | The loop equals the reference `Enumerate`. |
| RenderCompose.RenderNodes | prepare-workload/prepare_workload/compose/render_compose.py:73-86 | The loop equals `RenderAll`. |
| RenderCompose.EnumerateFailurePersists | prepare-workload/prepare_workload/compose/render_compose.py:77-80 | A failure on some node makes the whole enumeration fail. |
| RenderCompose.RenderComposeData | prepare-workload/prepare_workload/compose/render_compose.py:55-104 | The data assembly equals the reference `ComposeSpec`. |
| RenderCompose.CombinedView | prepare-workload/prepare_workload/compose/render_compose.py:64-70 | In the merged data the node keeps its name, while ports, image, network and volumes path are the shared settings. |
| RenderCompose.EnumerateIndexed | prepare-workload/prepare_workload/compose/render_compose.py:77 | The i-th result is `f(start + i, node i)`. |
| RenderCompose.EnumerateFails | prepare-workload/prepare_workload/compose/render_compose.py:77-86 | Enumeration fails iff `f` fails on some node. |
| RenderCompose.RenderAllIndexed | prepare-workload/prepare_workload/compose/render_compose.py:77-86 | The i-th service is node i rendered at index `start + i`. |
| RenderCompose.RenderAllNames | prepare-workload/prepare_workload/compose/render_compose.py:14-47 | Each service is named after its node, in order. It mounts `./<config_dir>/<name>`, uses the shared image and network, and carries `is_validator` exactly for validators. |
| RenderCompose.PortMappingInjective | prepare-workload/prepare_workload/compose/render_compose.py:22-23 | Equal mappings against one base come from equal indices. |
| RenderCompose.RenderAllPorts | prepare-workload/prepare_workload/compose/render_compose.py:21-24 | Service i maps host `base + start + i` to `base`, for the RPC and websocket admin ports. |
| RenderCompose.ComposeParts | prepare-workload/prepare_workload/compose/render_compose.py:75-86 | Validators are the name-sorted validators rendered from index `len(peers)`. Peers are the name-sorted peers rendered from 0. |
| RenderCompose.ComposeLengths | prepare-workload/prepare_workload/compose/render_compose.py:73-90 | One service per validator and one per peer. |
| RenderCompose.ComposeIndices | prepare-workload/prepare_workload/compose/render_compose.py:75-86 | Peers then validators form one sequence whose k-th service maps host ports `base + k`, for k in `0..P+V-1`. |
| RenderCompose.IndexedPortsDistinct | prepare-workload/prepare_workload/compose/render_compose.py:21-24 | Services at different positions have different host ports. |
| RenderCompose.HostPortsDistinct | prepare-workload/prepare_workload/compose/render_compose.py:75-86 | No two services, validators or peers, share a host port. |
| RenderCompose.UnlServiceIffUseUnl | prepare-workload/prepare_workload/compose/render_compose.py:95-104 | `unl_service` is present iff `use_unl`. |
| RenderCompose.ComposeSpec | prepare-workload/prepare_workload/compose/render_compose.py:88-104 | `use_unl` and the network name come from the settings. A `unl_service` entry exists exactly when `use_unl` is set, and it is the "unl" service with the settings' UNL file and network name. |
| RenderCompose.RenderAllFails | prepare-workload/prepare_workload/compose/render_compose.py:14-47 | Rendering fails iff some node lacks a string name or the shared ports lack an admin port. |
| RenderCompose.ServicesInNameOrder | prepare-workload/prepare_workload/compose/render_compose.py:76-86 | Validators and peers are each rendered in name order. Only validators carry `is_validator`. |
| PrepareMain.OverridesOf | prepare-workload/main.py:78-92 | "testnet_dir" is present iff given. "network" is present iff `num_validators` is given, and then holds only that key. "node_config" = `{need_features: True}` is present iff `need_features` is set. There are no other keys. |
| PrepareMain.Overrides | prepare-workload/main.py:78-92 | The conditional filling equals `OverridesOf`. |
| PrepareMain.CommandLineNumValidatorsWins | prepare-workload/main.py:84-87 | A count given on the command line is the count the settings end up with. |
| PrepareMain.NoCountNoOverride | prepare-workload/main.py:84-87 | Without `--num-validators` the overrides leave the count to the lower layers. |
| PrepareMain.IpsFixedLines | prepare-workload/main.py:33 | One line `"<peer> <port>"` per peer, in peer order. |
| PrepareMain.Formatted | prepare-workload/main.py:33 | How an f-string prints a scalar: a string as itself, an int as its digits. Lists and dicts are not formatted. |
| PrepareMain.PeerNames | prepare-workload/main.py:33 | Iterating `node_data["peers"]`: a list gives its formatted items, one per item, and fails iff some item is a list or dict. A string gives its characters. Any other scalar is not iterable. |
| PrepareMain.IpsFixed | prepare-workload/main.py:33 | No peers give the empty text. With peers, it fails exactly when the peer port is missing or is a list or dict. |
| PrepareMain.Computed | prepare-workload/main.py:28-33 | The computed defaults: ports, need_features, template, the newline-joined public keys and `ips_fixed`. |
| PrepareMain.ConfigData | prepare-workload/main.py:23-40 | A KeyError without `is_validator` or `peers`. `NotPeerNames` when the `peers` entry is not iterable as peer texts (see `PeerNames`). A missing peer port, or a validator without `keys.master_seed`, gives a KeyError too. The result is Ok exactly when none of these happens. The data then has the node's keys over the computed ones, `validation_seed`/`voting` only for validators, and `signing_support` "false" for validators and "true" otherwise. |
| PrepareMain.Spread | prepare-workload/main.py:28-40 | Keys are the node's, the computed ones and those written afterwards. The node's keys override the computed defaults. The validator-only keys and `signing_support` are as in `write_config`. |
| PrepareMain.ValidatorCount | prepare-workload/main.py:139 | At most `i` validators among the first `i` configs. |
| PrepareMain.AssignOne | prepare-workload/main.py:139-147 | The loop body's in-place updates give `Assigned`. |
| PrepareMain.Draws | prepare-workload/main.py:138-142 | There is one key draw per validator. |
| PrepareMain.AssignKeys | prepare-workload/main.py:132-149 | KeyError iff some config lacks `is_validator`. Otherwise each config is `Assigned` with its draw, and `validator_public_keys` lists the draws' node public keys in config order. |
| PrepareMain.AssignedFields | prepare-workload/main.py:139-147 | Validators gain `keys`. Every config gains `use_unl`, and with the UNL the publisher's master public key and the list sites. |
| PrepareMain.ValidatorCountMonotonic | prepare-workload/main.py:138-142 | Later configs have counted at least as many validators. |
| PrepareMain.PublicKeyOrder | prepare-workload/main.py:136-142 | Validator i receives the draw at its rank among validators, and earlier validators have smaller ranks. |
| PrepareMain.PublisherSeparate | prepare-workload/main.py:132-140 | With the UNL the publisher takes draw 0, and validators draw from 1 on. |
| PrepareMain.AllConfigs | prepare-workload/main.py:129 | `all_configs` is validators followed by peers. |
| PrepareMain.ValidatorsFirst | prepare-workload/main.py:129 | The first `len(validators)` configs are exactly the validators. |
| PrepareMain.AllConfigsHaveFlag | prepare-workload/main.py:129-139 | Every config from `get_node_configs` has `is_validator`, so the key loop never raises. |
| Nft.Low16 | workload/src/workload/nft.py:109-110 | `x & 0xFFFF` is below 2^16. |
| Nft.Low32 | workload/src/workload/nft.py:112-113 | `x & 0xFFFFFFFF` is below 2^32. |
| Nft.ScrambledTaxon | workload/src/workload/nft.py:106 | The stored taxon is below 2^32. |
| Nft.Be16 | workload/src/workload/nft.py:109-110 | `struct.pack(">H")` gives 2 bytes. |
| Nft.Be32 | workload/src/workload/nft.py:112-113 | `struct.pack(">I")` gives 4 bytes. |
| Nft.Pack | workload/src/workload/nft.py:107-115 | The buffer is `2 + 2 + len(issuer) + 4 + 4` bytes. |
| Nft.Hex | workload/src/workload/nft.py:121 | Two characters per byte. |
| Nft.IssuerLengthRule | workload/src/workload/nft.py:100-119 | Accepted iff the issuer is 20 bytes, or 21 bytes with the leading byte dropped. Any other length raises IssuerLengthError. BufferLengthError is never raised. |
| Nft.EncodeNftId | workload/src/workload/nft.py:100-121 | IssuerLengthError exactly when the issuer is neither 20 bytes nor 21 (with its type prefix). Otherwise the ID has 64 hex characters. |
| Nft.HexIsUpper | workload/src/workload/nft.py:121 | Every character is a hex digit and none is lower case. |
| Nft.UnhexHex | workload/src/workload/nft.py:121 | Reading the text back gives the buffer. |
| Nft.Be16RoundTrip | workload/src/workload/nft.py:109-110 | The 2 bytes read back big-endian as the value. |
| Nft.Be32RoundTrip | workload/src/workload/nft.py:112-113 | The 4 bytes read back big-endian as the value. |
| Nft.EncodeLayout | workload/src/workload/nft.py:106-121 | An accepted issuer gives 64 upper-case hex characters. They decode to `flags & 0xFFFF`, `fee & 0xFFFF`, the 20-byte issuer, the scrambled taxon and `seq & 0xFFFFFFFF`. |
| Nft.UnscrambleRecovers | workload/src/workload/nft.py:84-85 | XOR-ing the stored taxon with the same mask gives back `taxon mod 2^32`. |
| Nft.XorCancel | workload/src/workload/nft.py:106 | `(a ^ b) ^ b == a`. |
| Nft.ScrambleExample | workload/src/workload/nft.py:83-84 | For sequence 12 the mask is 0x12C5D5A7, and taxon 1337 scrambles to 0x12C5D09E. |
| Nft.PackExample | workload/src/workload/nft.py:78 | The packed example has fields 000B, 0539, the issuer, 12C5D09E and 0000000C. |
| Nft.EncodeIsHexOfPack | workload/src/workload/nft.py:107-121 | With a 20-byte issuer the ID is the hex text of the packed buffer. |
| Nft.HexExample | workload/src/workload/nft.py:78 | The hex text of the packed example shows those fields at their offsets. |
| Nft.DocExample | workload/src/workload/nft.py:78-90 | Flags 11, fee 1337, taxon 1337 and sequence 12 give fields 000B, 0539, 12C5D09E and 0000000C at offsets 0, 4, 48 and 56. |
| Amendments.Id | prepare-workload/prepare_workload/amendments.py:11-18 | Enum values are 0..2. |
| Amendments.TitleWord | prepare-workload/prepare_workload/amendments.py:21 | `title()` of a word keeps its length. |
| Amendments.NetworkNames | prepare-workload/prepare_workload/amendments.py:20-21 | `str(Network)` gives "Mainnet", "Testnet" and "Devnet". |
| Amendments.NetworkNameOf | prepare-workload/prepare_workload/amendments.py:21 | The title-cased `lower(name) + "net"` of a member is its printed name. |
| Amendments.RpcUrls | prepare-workload/prepare_workload/amendments.py:24-34 | Every network has at least one RPC URL. |
| Amendments.Describe | prepare-workload/prepare_workload/amendments.py:66-67 | The name followed by " Enabled" iff enabled, and " Disabled" iff not. |
| Amendments.AmendmentsFromNet | prepare-workload/prepare_workload/amendments.py:105-116 | The URL loop equals the reference `NetFetch`. The first URL that does not fail decides. When every URL fails, the RuntimeError message carries the network's integer value, because `f"{network}"` formats the IntEnum as its number. |
| Amendments.Status | prepare-workload/prepare_workload/amendments.py:149-154 | Obsolete takes precedence and has rank 2. Enabled has rank 0, disabled rank 1. The label matches the rank. |
| Amendments.Row | prepare-workload/prepare_workload/amendments.py:160 | The name cut to 31 and padded to 31, two spaces, the index, and the link at the end. |
| Amendments.NameColumn | prepare-workload/prepare_workload/amendments.py:160 | The name column is exactly 31 wide: the name cut to 31, then spaces. |
| Amendments.Listing | prepare-workload/prepare_workload/amendments.py:156-161 | One row per amendment, then an empty line. |
| Amendments.RecordsFaithful | prepare-workload/prepare_workload/amendments.py:131-138 | One record per entry in order. The index is the hash, the name defaults to the hash, the link is the prefix plus the lower-cased name, and the flags take their truthiness (default False). A non-dict entry or non-string name fails. |
| Amendments.UnreadableFile | prepare-workload/prepare_workload/amendments.py:80-84 | An unreadable file, or a non-object `features`, ends in AttributeError. |
| Amendments.UrlSourceNeverReturns | prepare-workload/prepare_workload/amendments.py:122-127 | A URL source never returns. It exits, with status 0 once the features were read. |
| Amendments.FirstNotFailed | prepare-workload/prepare_workload/amendments.py:109-114 | The position of the first URL whose fetch raises no `Exception`. All earlier ones failed. |
| Amendments.NetFetchFirst | prepare-workload/prepare_workload/amendments.py:105-116 | The first URL that does not fail decides: it returns its features, or its SystemExit escapes. If all fail, a RuntimeError "failed to fetch amendments for <n>", where n is the network's integer value. |
| Amendments.FromUrl | prepare-workload/prepare_workload/amendments.py:87-103 | Succeeds exactly on a fetched response, with its features. A URLError exits with "Couldn't query rippled at <url>: <reason>", and a KeyError exits with "Response had no key: '<key>'". Any other exception propagates. |
| Amendments.NetFetch | prepare-workload/prepare_workload/amendments.py:105-116 | A result comes from one of the network's URLs, with that URL's features. An error is either the SystemExit one URL raised, or the RuntimeError naming the network's number. |
| Amendments.FetchFailedNumber | prepare-workload/prepare_workload/amendments.py:116 | The message ends in the enum's digit ("failed to fetch amendments for 2" for the development network) and never in the network's name. |
| Amendments.RecordOf | prepare-workload/prepare_workload/amendments.py:131-138 | A record is built iff the info is a dict whose "name", if present, is a string (else AttributeError). Its index is the hash, its name is the "name" entry or else the hash, and its link is the prefix plus the lower-cased name. |
| Amendments.GetAmendments | prepare-workload/prepare_workload/amendments.py:118-138 | A URL source never returns (it exits after printing). A file source reports its path. A network source reports the RPC URL it used, one of that network's URLs. |
| Amendments.SortByRank | prepare-workload/prepare_workload/amendments.py:156 | The sorted list is a permutation of the input. |
| Amendments.SortByRankProperties | prepare-workload/prepare_workload/amendments.py:156 | The sort is rank-ordered and a permutation. |
| Amendments.SortByRankStable | prepare-workload/prepare_workload/amendments.py:156 | Within one rank the input order is kept. |
| Amendments.ListingOrder | prepare-workload/prepare_workload/amendments.py:156-161 | Every amendment is printed once: enabled before disabled before obsolete, input order within a status. |
| Balances.GetAccountTokens | config/volumes/workload/src/workload/balances.py:29-58 | The two buckets are the reference folds `Fill(owner, lines, Issued)` and `Fill(owner, lines, Held)`. |
| Balances.AddOne | config/volumes/workload/src/workload/balances.py:45-56 | Appending under a key keeps a bucket valid and adds one token. |
| Balances.Fill | config/volumes/workload/src/workload/balances.py:36-57 | Every bucket the loop builds is well formed: each key is listed once, the listed keys are exactly the map's keys, and no token list is empty. |
| Balances.FillValid | config/volumes/workload/src/workload/balances.py:36-57 | Each bucket is valid and holds one token per line sent to it. |
| Balances.FillKeys | config/volumes/workload/src/workload/balances.py:45-56 | A bucket's keys are its lines' counterparties in order of first appearance. |
| Balances.FillEntries | config/volumes/workload/src/workload/balances.py:45-56 | Each key's list holds exactly that counterparty's tokens, in line order. |
| Balances.EveryLineOnce | config/volumes/workload/src/workload/balances.py:36-57 | The two bucket totals add up to the number of lines. |
| Balances.SideCountsAddUp | config/volumes/workload/src/workload/balances.py:39-49 | Every line goes to exactly one side. |
| Balances.EntriesFromLines | config/volumes/workload/src/workload/balances.py:39-56 | An issued entry comes from a negative line with that holder, is issued by the account and is worth the negated balance. A held entry comes from a non-negative line, is issued by the counterparty and is worth the balance. Currency is kept. |
| RippledSync.MakeRequestOutcomes | workload/src/workload/check_rippled_sync_state.py:9-20 | HTTPError, URLError and ConnectionResetError give None. Any other exception passes on. A body is returned. |
| RippledSync.MakeRequest | workload/src/workload/check_rippled_sync_state.py:9-20 | The body is returned when there is one. HTTPError, URLError and ConnectionResetError give None. Any other exception escapes. |
| RippledSync.GetServerInfo | workload/src/workload/check_rippled_sync_state.py:23-29 | No response, or an empty body, raises UnboundLocalError. A result needs a non-empty, decodable body, and an info that is not an object is returned as it is. |
| RippledSync.IsRippledSynced | workload/src/workload/check_rippled_sync_state.py:32-46 | True exactly when the exchange reports a synced server (`ReportsSynced`). |
| RippledSync.NoResponseUnbound | workload/src/workload/check_rippled_sync_state.py:23-29 | No (or an empty) response leaves `server_info` unbound, and the probe answers False. |
| RippledSync.ProjectExact | workload/src/workload/check_rippled_sync_state.py:27 | The projection has the requested keys once each, in order, with the info's values. It is a KeyError iff a key is missing, naming the first. |
| RippledSync.ServerInfoProjection | workload/src/workload/check_rippled_sync_state.py:23-29 | With params, `get_server_info` is exactly the projection. |
| RippledSync.ServerInfoWhole | workload/src/workload/check_rippled_sync_state.py:27 | Without params (or with an empty list) it is the whole info. |
| RippledSync.RippledSyncedIff | workload/src/workload/check_rippled_sync_state.py:32-46 | True iff a body was obtained whose info has both keys, `complete_ledgers != "empty"` and `server_state == "full"`. Every exception gives False. |
| RippledSync.SyncProjection | workload/src/workload/check_rippled_sync_state.py:35-36 | The projection the predicate unpacks, on an object info. |
| XrpldSync.XrpldSyncedIff | workload/src/workload/check_xrpld_sync_state.py:32-46 | The same rule for the xrpld probe. A missing response gives False. |
| XrpldSync.IsXrpldSynced | workload/src/workload/check_xrpld_sync_state.py:32-46 | True exactly when the exchange reports a synced server (`ReportsSynced`). |
| XrpldSync.SameAsRippled | workload/src/workload/check_xrpld_sync_state.py:32-46 | Both probes give the same answer on every exchange. |
| ValidatorsClosing.Url | workload/src/workload/check_validators_closing.py:45 | The URL starts with "http://" and ends with ":5005". |
| ValidatorsClosing.UrlInjective | workload/src/workload/check_validators_closing.py:45 | Two validator numbers share a URL iff they are equal. |
| ValidatorsClosing.ValidatorNumbers | workload/src/workload/check_validators_closing.py:81-86 | No numbers (the check answers False) iff a truthy request is above the count. Every number checked is at most the count. |
| ValidatorsClosing.Wait | workload/src/workload/check_validators_closing.py:33-41 | Arrival is at a later reading `>=` the first reading + 1. Still waiting means every later reading is below that target. |
| ValidatorsClosing.CheckSingle | workload/src/workload/check_validators_closing.py:44-74 | The process exits iff the connection failed. It raises iff the request failed otherwise or the info cannot be read as a dict. True only after the ledger wait closed. |
| ValidatorsClosing.WaitForLedgerClose | workload/src/workload/check_validators_closing.py:33-41 | The polling loop equals the reference `Wait`. |
| ValidatorsClosing.WaitArrives | workload/src/workload/check_validators_closing.py:33-39 | The wait returns only at a reading `>=` the first reading + 1, after readings all below it. |
| ValidatorsClosing.SingleTrueIff | workload/src/workload/check_validators_closing.py:44-74 | True iff the validator answered, is "proposing" and its ledger wait closed. The process exits iff the connection failed. |
| ValidatorsClosing.Aggregate | workload/src/workload/check_validators_closing.py:91-99 | True iff every result is True. An exception or False returns False. |
| ValidatorsClosing.Verdicts | workload/src/workload/check_validators_closing.py:88-89 | One verdict per validator number. |
| ValidatorsClosing.CheckValidatorProposing | workload/src/workload/check_validators_closing.py:77-99 | Exits iff some checked validator had a connection error. True iff every checked validator is True. Never raises. |
| ValidatorsClosing.OutOfRange | workload/src/workload/check_validators_closing.py:81-83 | A request above the count checks nobody. |
| ValidatorsClosing.SelectionRule | workload/src/workload/check_validators_closing.py:85-86 | None or 0 checks 1..N. A request checks only itself. All numbers are at most N. |
| Currency.IssueCurrencies | workload/src/workload/utils.py:67 | One IssuedCurrency per code, in order, all with the given issuer. |
| Currency.FormatLayout | workload/src/workload/utils.py:33-47 | `"<currency>.<issuer>"`, with `"<value> "` in front iff there is a value. The issuer part is shortened when asked. Failure happens iff shortening a missing issuer. |
| Currency.Format | workload/src/workload/utils.py:33-47 | Fails (UnboundLocalError) exactly when shortening a missing issuer. |
| Currency.IssuedFormats | workload/src/workload/utils.py:41-47 | An issued currency formats as `"<code>.<issuer>"`. |
| WorkloadUtils.ShortAddress | workload/src/workload/utils.py:13-15 | The first 7 characters: a prefix of at most 7. |
| WorkloadUtils.FormatCurrency | workload/src/workload/utils.py:33-47 | Fails (UnboundLocalError) exactly when shortening a missing issuer. |
| WorkloadUtils.FormatCurrencyShort | workload/src/workload/utils.py:51-52 | Always shortens: it fails (UnboundLocalError) iff there is no issuer. Otherwise it ends in `"<code>.<first 7 of issuer>"`. |
| WorkloadUtils.IssuedCurrencyText | workload/src/workload/utils.py:54-67 | Issued currencies print as `"<code>.<issuer>"`, with the issuer cut to 7 when short. |
| WorkloadUtils.PollLedger | workload/src/workload/utils.py:115-121 | The poll `while current <= last` is the wait `Wait`: it stops at the first reading above the first. |
| WorkloadUtils.HandleResponse | workload/src/workload/utils.py:105-125 | Equals the reference `Handle` for one validator. |
| WorkloadUtils.CheckValidatorProposing | workload/src/workload/utils.py:77-126 | The loop, as written, equals `CheckAsWritten`. A ConnectionError exits with status 1, and any other RequestException escapes. After a ConnectTimeout the loop goes on with the previous response. |
| WorkloadUtils.RunAsWritten | workload/src/workload/utils.py:93-125 | The loop as written stops only with an exception or an exit, and an exit has status 1. |
| WorkloadUtils.CheckAsWritten | workload/src/workload/utils.py:77-126 | A truthy request above the count answers False. The only exit status is 1. |
| WorkloadUtils.RunCorrected | workload/src/workload/utils.py:93-125 | The corrected loop stops only with an exception or an exit with status 1, and never with UnboundLocalError. |
| WorkloadUtils.CheckCorrected | workload/src/workload/utils.py:77-126 | A truthy request above the count answers False. The only exit status is 1, and the corrected check never raises UnboundLocalError. |
| WorkloadUtils.RunStopsAt | workload/src/workload/utils.py:93-125 | A run that stopped on a prefix keeps that outcome. |
| WorkloadUtils.CorrectedFlags | workload/src/workload/utils.py:92-125 | In the corrected loop the flags are exactly the visited validators, each with whether it passes. |
| WorkloadUtils.CorrectedAnswer | workload/src/workload/utils.py:92-126 | Corrected: True iff every visited validator answered, is proposing and saw its ledger advance. |
| WorkloadUtils.RunsAgree | workload/src/workload/utils.py:96-125 | Without timeouts, as-written and corrected loops record the same flags or stop the same way. |
| WorkloadUtils.AgreeWithoutTimeouts | workload/src/workload/utils.py:96-105 | The two checks differ only when some validator times out. |
| WorkloadUtils.NoValidatorsIsTrue | workload/src/workload/utils.py:126 | No validators to visit: `all([])` is True. |
| WorkloadUtils.VnumsRule | workload/src/workload/utils.py:81-91 | A truthy request above the count answers False at once. Any other given request, 0 included, visits `request - 1` only. Without a request (`None`), validators `0..N-1` are visited in order. |
| WorkloadUtils.Vnums | workload/src/workload/utils.py:81-91 | Nothing is visited (answer False) iff a truthy request is above the count. Any other given request visits `request - 1` only. Without a request (`None`), the validators visited are `0, 1, ...` in order. |
| WorkloadUtils.StepRecordsPass | workload/src/workload/utils.py:96-125 | A corrected pass that completes records, for that validator only, whether it passes. |
| WorkloadUtils.StaleResponseCounterexample | workload/src/workload/utils.py:96-110 | Validator 1 times out after validator 0 was healthy. As written the check answers True; corrected, False. |
| WorkloadUtils.FirstTimeoutCounterexample | workload/src/workload/utils.py:96-105 | The first validator times out. As written the check raises UnboundLocalError; corrected, it answers False. |
| VolumeUtils.ShortAddress | config/volumes/workload/src/workload/utils.py:7-10 | The first 5, "...", the last 5: 13 characters for an address of at least 5. |
| VolumeUtils.FormatCurrency | config/volumes/workload/src/workload/utils.py:26-40 | Fails (UnboundLocalError) exactly when shortening a missing issuer. |
| VolumeUtils.FormatCurrencyLayout | config/volumes/workload/src/workload/utils.py:26-40 | `"<currency>.<issuer>"`, preceded by `"<value> "` iff there is a value. The issuer is shortened when asked, and that fails iff it is missing. |
| VolumeUtils.IssueCurrenciesKeepsCodes | config/volumes/workload/src/workload/utils.py:45-58 | Codes keep their order and count, under the one issuer, and each prints as `"<code>.<issuer>"`. |
| Models.ShortAddress | workload/src/workload/models.py:6-7 | The first 6, "..", the last 5: 13 characters for an address of at least 6. A shorter address appears twice around "..". |
| Models.Account.constructor | workload/src/workload/models.py:20-21 | `address` is the wallet's address. |
| Models.Account.ToString | workload/src/workload/models.py:32-33 | `str(account)` is the short address. |
| Models.Gateway.constructor | workload/src/workload/models.py:34-36 | The address is copied, and `issued_currencies` starts empty. |
| Models.UserAccount.constructor | workload/src/workload/models.py:38-42 | The address is copied; balances, tickets and NFTs start empty. |
| Models.UserAccount.Tickets | workload/src/workload/models.py:51-53 | The getter returns the current tickets. |
| Models.UserAccount.SetTickets | workload/src/workload/models.py:55-57 | The setter replaces the tickets and nothing else. |
| Models.UserAccount.Nfts | workload/src/workload/models.py:44-46 | The getter returns the current NFTs. |
| Models.UserAccount.SetNfts | workload/src/workload/models.py:48-50 | The setter replaces the NFTs and nothing else. |
| Models.SettersIndependent | workload/src/workload/models.py:44-57 | Setting both sets reads each back as written, and leaves address and balances unchanged. |
| Models.SeparateInstances | workload/src/workload/models.py:36-42 | Collections are per instance: filling one account's tickets leaves a second account's defaults empty. |
| Order.SortProperties | prepare-workload/prepare_workload/node_config.py:20 | `sorted` gives a sorted permutation. |
| Order.StrictlySortedUnique | prepare-workload/prepare_workload/node_config.py:20 | A strictly sorted list is determined by its elements. |
| Order.SortByStable | prepare-workload/prepare_workload/compose/render_compose.py:76 | `sorted(..., key=)` keeps the input order among equal keys. |
| Seqs.DistinctSameElements | prepare-workload/prepare_workload/node_config.py:27 | The keys of `{n: [] for n in nodes}` are exactly the nodes. |
| Text.JoinSplitSep | prepare-workload/prepare_workload/settings.py:64 | `"__".join(s.split("__")) == s`. |
| Text.SplitSepPartsHaveNoSep | prepare-workload/prepare_workload/settings.py:64 | No part of `split("__")` contains "__". |

## Left out

- Threads, HTTP, sockets, `time.sleep` and `time.time`, logging, and the antithesis `lifecycle`/`assertions` calls. Poll results, replies and ledger readings are inputs. Events and assertions are returned records.
- Sidecar replies: a reply is assumed to carry `status`, and a successful one also `ledger_index` and `ledger_hash`. sidecar.py reads them at lines 97 and 105 outside any `try`, so a reply without them would raise KeyError in the main loop; the reply type cannot express one.
- Sidecar.HealthCheck.Run: `while True` is modelled over a finite supply of passes. With `stop = 0` the model runs every supplied pass; the unbounded run is not modelled.
- Polling loops that never see a new ledger: the model reports `StillWaiting`/`Polling` when the supplied readings run out.
- The concurrent `asyncio.gather` in `check_validators_closing.py`: each validator's verdict is computed from its reply, and the aggregation is sequential.
- `wait_for_ledger_close` in `workload/src/workload/utils.py` (lines 69-75) has the same termination rule as `ValidatorsClosing.Wait`, which `WorkloadUtils.PollLedger` implements; it has no row of its own.
- Everything that builds, signs or submits XRPL transactions through xrpl-py, and the random choices in the builders. Random picks are parameters. `TxnFactory.GenerateTxn` takes `from_xrpl` as a parameter and does not model the printed error.
- Base58 check-decoding in `encode_nft_id`: the issuer is given as decoded bytes. The two `logger.debug` lines after the hex conversion (nft.py lines 122-123) are not modelled. The module binds only `log` (nft.py line 16), so as written every call that passes the length checks raises NameError at line 122. The model returns the ID that lines 100-121 compute.
- Floating point:
  - the string (XRP/drops) branch of both `format_currency`;
  - the `float` branch of `_coerce_like`;
  - `str(float(balance) * -1)`.
  Balances are integers, and an issued entry's value is the negated integer.
- PrepareMain.PeerNames: a dict `peers` entry (Python iterates over its keys) is not modelled and gives NotPeerNames. List or dict items, and a list or dict peer port, which an f-string prints by their repr, make the model fail instead (NotPeerNames, or a missing peer).
- TxnFactory.DeepUpdate: the in-place update of `base`, and the fact that the returned dict is `base` itself (an alias), are not captured. The model returns the merged value.
- Models.UserAccount.Nfts: the getter returns the set as a value, not the object that backs the property. A caller's in-place change through it, such as `account.nfts.add(nftoken_id)`, is not captured. It is expressed as `SetNfts(Nfts() + {id})`.
- Models.UserAccount.Tickets: the same holds for tickets. A change through the returned set is expressed as `SetTickets(Tickets() + {t})`.
- Settings.GetSettings: the path values (`project_root`, `template_dir_path` and the others) are not computed. The model checks only whether the path joins and the namespaces can be built, and returns the merged configuration.
- Settings.Coerce: Python's `int()` also accepts surrounding whitespace and digit-group underscores. The model parses only an optional sign followed by ASCII digits.
- `str.lower()` is modelled on ASCII letters only.
- Mako rendering, file reads and writes, argparse, `os.environ` (passed in as `(name, value)` pairs), TOML loading (the parsed file is an input), and the UNL server. Key generation is an input function.
- Models: Python dataclass inheritance has no counterpart. `Gateway` and `UserAccount` repeat the `Account` fields. `get_currencies` (a stub) and `update_balances` (it reads an attribute no class defines, and only prints) are not modelled.
- XrpldSync shares `make_request` and `get_server_info` with RippledSync, because the two files differ only in log text.
- Dict key order: kept where it is visible (peer-table keys, balance buckets, the server_info projection, amendment entries), and dicts are maps elsewhere.

## Findings

| source | as written | input that shows it | evidently intended | confidence | as-written member | corrected member |
|---|---|---|---|---|---|---|
| workload/src/workload/utils.py:96-105 | After `ConnectTimeout` the loop records False but does not `continue`. It then reads `response.ok` from the previous validator's response, or from an unbound name on the first validator. | Two validators: the first healthy, the second timing out. The check returns True. A first validator timing out raises UnboundLocalError. | A timed-out validator counts as not proposing, and the check answers False. | not executed | WorkloadUtils.StaleResponseCounterexample | WorkloadUtils.CorrectedAnswer |
