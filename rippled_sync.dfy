/**
 * The readiness probe of the workload: ask a node for `server_info` and call
 * it synced when it reports complete ledgers and the "full" server state.
 * The HTTP exchange is an input value: the exception `urlopen` raised, or the
 * body it returned together with what `json.loads(body)["result"]["info"]`
 * gives.
 */
module RippledSync {
  import opened Wrappers
  import opened Values
  import opened Seqs

  /** The exceptions `urlopen(...).read()` can raise. */
  datatype RequestError = HTTPError | URLError | ConnectionResetError | OtherError

  /** `json.loads(body)["result"]["info"]`: a JSON object in key order, another value, or an exception. */
  datatype Decoded = InfoObject(entries: seq<(string, Value)>) | InfoOther(v: Value) | Undecodable

  /** What the HTTP exchange gives. */
  datatype Exchange = Raised(error: RequestError) | Body(text: string, info: Decoded)

  /** The exceptions that leave `get_server_info`. */
  datatype Exc = UnboundLocalError | KeyError(key: string) | OtherException

  /** A server_info value: a dict in key order, or whatever else `info` was. */
  datatype Info = Entries(entries: seq<(string, Value)>) | NonObject(v: Value)

  /**
   * `make_request`: the body, `None` when an HTTPError, URLError or
   * ConnectionResetError was caught, and any other exception passed on.
   */
  function MakeRequest(x: Exchange): (r: Result<Option<string>, Exc>)
    ensures r.Err? <==> x.Raised? && x.error == OtherError
    ensures r == Ok(None) <==> x.Raised? && x.error != OtherError
    ensures x.Body? ==> r == Ok(Some(x.text))
  {
    match x
    case Raised(e) => if e == OtherError then Err(OtherException) else Ok(None)
    case Body(text, _) => Ok(Some(text))
  }

  /** `d[key]` on a parsed JSON object: the last entry with that key wins. */
  function Find(entries: seq<(string, Value)>, key: string): Option<Value> {
    if |entries| == 0 then None
    else if entries[|entries| - 1].0 == key then Some(entries[|entries| - 1].1)
    else Find(entries[..|entries| - 1], key)
  }

  /** `{p: info[p] for p in params}` over `keys`, or the first missing key. */
  function Project(entries: seq<(string, Value)>, keys: seq<string>): Result<seq<(string, Value)>, Exc> {
    if |keys| == 0 then Ok([])
    else
      match Find(entries, keys[0])
      case None => Err(KeyError(keys[0]))
      case Some(v) =>
        match Project(entries, keys[1..])
        case Err(e) => Err(e)
        case Ok(rest) => Ok([(keys[0], v)] + rest)
  }

  /** Python truthiness of a server_info value. */
  predicate InfoTruthy(i: Info) {
    match i
    case Entries(e) => |e| > 0
    case NonObject(v) => Truthy(v)
  }

  /**
   * `get_server_info`: with a falsy (missing or empty) response the name
   * `server_info` is never bound; otherwise the projection on `params`, or
   * the whole info when `params` is `None` or empty.
   */
  function GetServerInfo(x: Exchange, params: Option<seq<string>>): (r: Result<Info, Exc>)
    ensures MakeRequest(x) == Ok(None) || (x.Body? && |x.text| == 0) ==> r == Err(UnboundLocalError)
    ensures r.Ok? ==> x.Body? && |x.text| > 0 && !x.info.Undecodable?
    ensures r.Ok? && x.info.InfoOther? ==> r.value == NonObject(x.info.v)
  {
    match MakeRequest(x)
    case Err(e) => Err(e)
    case Ok(response) =>
      if response.None? || |response.value| == 0 then Err(UnboundLocalError)
      else if x.info.Undecodable? then Err(OtherException)
      else if params.None? || |params.value| == 0 then
        Ok(if x.info.InfoObject? then Entries(x.info.entries) else NonObject(x.info.v))
      else if x.info.InfoOther? then Err(OtherException)  // indexing a non-dict by a string
      else
        match Project(x.info.entries, Distinct(params.value))
        case Err(e) => Err(e)
        case Ok(projected) => Ok(Entries(projected))
  }

  const SyncKeys: seq<string> := ["complete_ledgers", "server_state"]

  /**
   * `is_rippled_synced`: every exception is caught and leaves the answer
   * False; otherwise synced means complete ledgers other than "empty" and the
   * server state "full".
   */
  function IsRippledSynced(x: Exchange): (r: bool)
    ensures r <==> ReportsSynced(x)
  {
    SyncProjection(x);
    match GetServerInfo(x, Some(SyncKeys))
    case Err(_) => false
    case Ok(info) =>
      if !InfoTruthy(info) || !info.Entries? || |info.entries| != 2 then false
      else
        var completeLedgers := info.entries[0].1;
        var serverState := info.entries[1].1;
        completeLedgers != VStr("empty") && serverState == VStr("full")
  }

  /** The condition both sync predicates decide. */
  predicate ReportsSynced(x: Exchange) {
    && x.Body? && |x.text| > 0 && x.info.InfoObject?
    && Find(x.info.entries, "complete_ledgers").Some?
    && Find(x.info.entries, "server_state").Some?
    && Find(x.info.entries, "complete_ledgers").value != VStr("empty")
    && Find(x.info.entries, "server_state").value == VStr("full")
  }

  // ---------------------------------------------------------------------------
  // Properties

  /** The three caught exceptions give `None`; any other is passed on; a body is returned. */
  lemma MakeRequestOutcomes(x: Exchange)
    ensures x.Raised? && x.error != OtherError ==> MakeRequest(x) == Ok(None)
    ensures x.Raised? && x.error == OtherError ==> MakeRequest(x).Err?
    ensures x.Body? ==> MakeRequest(x) == Ok(Some(x.text))
  {
  }

  /** A missing or empty response leaves `server_info` unbound. */
  lemma NoResponseUnbound(x: Exchange, params: Option<seq<string>>)
    requires MakeRequest(x) == Ok(None) || (x.Body? && |x.text| == 0)
    ensures GetServerInfo(x, params) == Err(UnboundLocalError)
    ensures !IsRippledSynced(x)
  {
  }

  /** Every requested key is in the info. */
  predicate AllPresent(entries: seq<(string, Value)>, keys: seq<string>) {
    forall i :: 0 <= i < |keys| ==> Find(entries, keys[i]).Some?
  }

  /** `keys[i]` is the first requested key the info lacks. */
  predicate FirstMissing(entries: seq<(string, Value)>, keys: seq<string>, i: int) {
    && 0 <= i < |keys| && Find(entries, keys[i]).None?
    && forall j :: 0 <= j < i ==> Find(entries, keys[j]).Some?
  }

  /**
   * The projection has the requested keys once each, in the order they were
   * first requested, with the info's values; it fails with KeyError exactly
   * when some requested key is missing, naming the first such key.
   */
  lemma {:induction false} ProjectExact(entries: seq<(string, Value)>, keys: seq<string>)
    ensures var r := Project(entries, keys);
      && (r.Ok? <==> AllPresent(entries, keys))
      && (r.Ok? ==> |r.value| == |keys| && forall i :: 0 <= i < |keys| ==>
            r.value[i] == (keys[i], Find(entries, keys[i]).value))
      && (r.Err? ==> exists i :: FirstMissing(entries, keys, i) && r.error == KeyError(keys[i]))
  {
    if |keys| > 0 {
      var t := keys[1..];
      ProjectExact(entries, t);
      var r := Project(entries, keys);
      if Find(entries, keys[0]).Some? {
        if r.Ok? {
          forall i | 0 < i < |keys| ensures r.value[i] == (keys[i], Find(entries, keys[i]).value) {
            assert keys[i] == t[i - 1];
          }
        } else {
          var i :| FirstMissing(entries, t, i) && r.error == KeyError(t[i]);
          assert keys[i + 1] == t[i];
          forall j | 0 < j < i + 1 ensures Find(entries, keys[j]).Some? {
            assert keys[j] == t[j - 1];
          }
          assert FirstMissing(entries, keys, i + 1);
        }
        forall i | 0 < i < |keys| ensures keys[i] == t[i - 1] { }
      } else {
        assert FirstMissing(entries, keys, 0);
      }
    }
  }

  /** With params, the server_info is exactly the projection on the distinct params. */
  lemma ServerInfoProjection(x: Exchange, params: seq<string>)
    requires x.Body? && |x.text| > 0 && x.info.InfoObject? && |params| > 0
    ensures var r := GetServerInfo(x, Some(params));
      var keys := Distinct(params);
      && (r.Ok? <==> AllPresent(x.info.entries, keys))
      && (r.Ok? ==> r.value.Entries? && |r.value.entries| == |keys| && forall i :: 0 <= i < |keys| ==>
            r.value.entries[i] == (keys[i], Find(x.info.entries, keys[i]).value))
  {
    var keys := Distinct(params);
    ProjectExact(x.info.entries, keys);
    var p := Project(x.info.entries, keys);
    var r := GetServerInfo(x, Some(params));
    if p.Ok? {
      assert r == Ok(Entries(p.value));
    } else {
      assert r == Err(p.error);
    }
  }

  /** Without params, the server_info is the whole info. */
  lemma ServerInfoWhole(x: Exchange, params: Option<seq<string>>)
    requires x.Body? && |x.text| > 0 && !x.info.Undecodable?
    requires params.None? || params.value == []
    ensures GetServerInfo(x, params) == Ok(if x.info.InfoObject? then Entries(x.info.entries) else NonObject(x.info.v))
  {
  }

  /**
   * Synced exactly when a non-empty body was obtained whose info has both
   * keys, complete ledgers other than "empty" and the state "full"; in every
   * other case, exceptions included, the answer is False.
   */
  lemma RippledSyncedIff(x: Exchange)
    ensures IsRippledSynced(x) <==> ReportsSynced(x)
  {
    SyncProjection(x);
  }

  /** The projection the predicates read, when the info is an object. */
  lemma SyncProjection(x: Exchange)
    ensures var r := GetServerInfo(x, Some(SyncKeys));
      && (r.Ok? <==> x.Body? && |x.text| > 0 && x.info.InfoObject?
                     && Find(x.info.entries, "complete_ledgers").Some? && Find(x.info.entries, "server_state").Some?)
      && (r.Ok? ==> r.value == Entries([("complete_ledgers", Find(x.info.entries, "complete_ledgers").value),
                                         ("server_state", Find(x.info.entries, "server_state").value)]))
  {
    assert Distinct(SyncKeys) == SyncKeys by {
      assert SyncKeys[..1] == ["complete_ledgers"];
      assert Distinct(SyncKeys[..1]) == ["complete_ledgers"];
    }
    if x.Body? && |x.text| > 0 && x.info.InfoObject? {
      ProjectExact(x.info.entries, SyncKeys);
    }
  }
}
