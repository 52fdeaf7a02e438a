/**
 * The amendment listing of prepare-workload: network names, amendment
 * records built from a `feature` response, their status ranking and the
 * stable sort that prints them, and the per-network fallback over RPC URLs.
 * Every fetch is an input value: the outcome a URL would give.
 */
module Amendments {
  import opened Wrappers
  import opened Values
  import opened Text

  // ---------------------------------------------------------------------------
  // Networks

  datatype Network = Main | Test | Dev

  /** The integer value of the enum member. */
  function Id(n: Network): (r: nat)
    ensures r < 3
  {
    match n
    case Main => 0
    case Test => 1
    case Dev => 2
  }

  /** The enum member's name. */
  function MemberName(n: Network): string {
    match n
    case Main => "MAIN"
    case Test => "TEST"
    case Dev => "DEV"
  }

  /** `str.title()` of a single word: first letter upper case, the rest lower case. */
  function TitleWord(s: string): (r: string)
    ensures |r| == |s|
  {
    if |s| == 0 then "" else [UpperChar(s[0])] + Lower(s[1..])
  }

  /** `str(network)`: the lower-cased member name with "net", in title case. */
  function NetworkName(n: Network): string {
    TitleWord(Lower(MemberName(n)) + "net")
  }

  /** The three names: "Mainnet", "Testnet", "Devnet". */
  lemma NetworkNames()
    ensures NetworkName(Main) == "Mainnet"
    ensures NetworkName(Test) == "Testnet"
    ensures NetworkName(Dev) == "Devnet"
  {
    NetworkNameOf("MAIN", "main", "Mainnet");
    NetworkNameOf("TEST", "test", "Testnet");
    NetworkNameOf("DEV", "dev", "Devnet");
  }

  lemma NetworkNameOf(member: string, lower: string, name: string)
    requires member in {"MAIN", "TEST", "DEV"}
    requires lower == if member == "MAIN" then "main" else if member == "TEST" then "test" else "dev"
    requires name == if member == "MAIN" then "Mainnet" else if member == "TEST" then "Testnet" else "Devnet"
    ensures TitleWord(Lower(member) + "net") == name
  {
    assert Lower(member) == lower;
    var w := lower + "net";
    assert Lower(w[1..]) == w[1..];
  }

  /**
   * `f"{network}"`: an `IntEnum` that defines `__str__` but not `__format__`
   * keeps `int.__format__`, so an f-string shows the member's integer value,
   * not the name `str(network)` gives.
   */
  function Formatted(n: Network): string {
    IntToString(Id(n))
  }

  /** The RuntimeError message when every URL of the network fails. */
  function FetchFailedMessage(n: Network): string {
    "failed to fetch amendments for " + Formatted(n)
  }

  /**
   * The message carries the enum's number: "failed to fetch amendments for 2"
   * for the development network, and never its printed name.
   */
  lemma FetchFailedNumber(n: Network)
    ensures FetchFailedMessage(n) == "failed to fetch amendments for " + [DigitChar(Id(n))]
    ensures FetchFailedMessage(Dev) == "failed to fetch amendments for 2"
    ensures FetchFailedMessage(n) != "failed to fetch amendments for " + NetworkName(n)
  {
    NetworkNames();
    var name := NetworkName(n);
    assert |name| >= 6;
  }

  /** `network_rpc_url[network]`. */
  function RpcUrls(n: Network): (r: seq<string>)
    ensures |r| >= 1
  {
    match n
    case Main => ["https://s1.ripple.com:51234", "https://s2.ripple.com:51234"]
    case Test => ["https://s.altnet.rippletest.net:51234/", "https://clio.altnet.rippletest.net:51234/"]
    case Dev => ["https://s.devnet.rippletest.net:51234"]
  }

  // ---------------------------------------------------------------------------
  // Amendment records

  datatype Amendment = Amendment(index: string, name: string, link: string, enabled: bool, obsolete: bool)

  const LinkPrefix := "https://xrpl.org/resources/known-amendments#"

  /** `str(amendment)`: the name followed by " Enabled" or " Disabled". */
  function Describe(a: Amendment): (r: string)
    ensures |r| > |a.name|
    ensures r[..|a.name|] == a.name
    ensures a.enabled <==> r[|a.name|..] == " Enabled"
    ensures !a.enabled <==> r[|a.name|..] == " Disabled"
  {
    a.name + " " + (if a.enabled then "Enabled" else "Disabled")
  }

  /** Why building the records failed. */
  datatype Failure =
    | AttributeError        // `.items()` or `.get()` or `.lower()` on a value without it
    | Exit(message: string) // `SystemExit` with a message (exit status 1)
    | ExitZero              // `sys.exit(0)`
    | RuntimeError(message: string)
    | Raised                // any other exception, propagated as it is

  /**
   * A parsed `features` value: a JSON object, in the order of its keys, or
   * anything else.
   */
  datatype Parsed = Object(entries: seq<(string, Value)>) | NotAnObject

  /** `info.get(key, default)` on a dict. */
  function Get(d: map<string, Value>, key: string, default: Value): Value {
    if key in d then d[key] else default
  }

  /** The record of one `(hash, info)` entry, as the comprehension builds it. */
  function RecordOf(hash: string, info: Value): (r: Result<Amendment, Failure>)
    ensures r.Ok? <==> WellFormed(info)
    ensures r.Err? ==> r.error == AttributeError
    ensures r.Ok? ==> r.value.index == hash && r.value.link == LinkPrefix + Lower(r.value.name)
    ensures r.Ok? ==> r.value.name == (if "name" in info.d then info.d["name"].s else hash)
  {
    if !info.VDict? then Err(AttributeError)
    else
      var name := Get(info.d, "name", VStr(hash));
      if !name.VStr? then Err(AttributeError)
      else Ok(Amendment(hash, name.s, LinkPrefix + Lower(name.s),
                        Truthy(Get(info.d, "enabled", VBool(false))),
                        Truthy(Get(info.d, "obsolete", VBool(false)))))
  }

  /** The records of all entries in order, or the first entry's failure. */
  function Records(entries: seq<(string, Value)>): Result<seq<Amendment>, Failure> {
    if |entries| == 0 then Ok([])
    else
      match RecordOf(entries[0].0, entries[0].1)
      case Err(e) => Err(e)
      case Ok(a) =>
        match Records(entries[1..])
        case Err(e) => Err(e)
        case Ok(rest) => Ok([a] + rest)
  }

  /** `a.items()` followed by the comprehension. */
  function RecordsOf(p: Parsed): Result<seq<Amendment>, Failure> {
    match p
    case NotAnObject => Err(AttributeError)
    case Object(entries) => Records(entries)
  }

  /** An entry the comprehension accepts: a dict whose name, if present, is a string. */
  predicate WellFormed(info: Value) {
    info.VDict? && ("name" in info.d ==> info.d["name"].VStr?)
  }

  // ---------------------------------------------------------------------------
  // Fetching the features of a network

  /** What fetching the `feature` response from one URL gives. */
  datatype FetchOutcome =
    | Fetched(features: Parsed)    // `res["result"]["features"]`
    | Unreachable(reason: string)  // `URLError` (`reason` is the text of `e.reason or e`): turned into SystemExit
    | MissingKey(key: string)      // `KeyError`: turned into SystemExit
    | Failed                       // any other exception (timeout, bad JSON, ...)

  /** `_get_amendments_from_url`: the features, or the exception it ends with. */
  function FromUrl(url: string, outcome: FetchOutcome): (r: Result<Parsed, Failure>)
    ensures r.Ok? <==> outcome.Fetched?
    ensures r.Ok? ==> r.value == outcome.features
    ensures r.Err? && r.error.Exit? <==> outcome.Unreachable? || outcome.MissingKey?
    ensures outcome.Unreachable? ==> r.error.message == "Couldn't query rippled at " + url + ": " + outcome.reason
    ensures outcome.MissingKey? ==> r.error.message == "Response had no key: '" + outcome.key + "'"
    ensures outcome.Failed? ==> r == Err(Raised)
  {
    match outcome
    case Fetched(p) => Ok(p)
    case Unreachable(reason) => Err(Exit("Couldn't query rippled at " + url + ": " + reason))
    case MissingKey(key) => Err(Exit("Response had no key: '" + key + "'"))
    case Failed => Err(Raised)
  }

  /**
   * The fallback over `urls`: the first URL whose fetch raises no `Exception`
   * wins; a `SystemExit` is not an `Exception` and ends the search; when every
   * URL fails the result is a RuntimeError with the network's number.
   */
  function NetFetch(n: Network, urls: seq<string>, fetch: string -> FetchOutcome): (r: Result<(string, Parsed), Failure>)
    ensures r.Ok? ==> r.value.0 in urls && fetch(r.value.0) == Fetched(r.value.1)
    ensures r.Err? ==> r.error.Exit? || r.error == RuntimeError(FetchFailedMessage(n))
    ensures r.Err? && r.error.Exit? ==> exists i :: 0 <= i < |urls| && FromUrl(urls[i], fetch(urls[i])) == Err(r.error)
  {
    if |urls| == 0 then Err(RuntimeError(FetchFailedMessage(n)))
    else
      match FromUrl(urls[0], fetch(urls[0]))
      case Ok(p) => Ok((urls[0], p))
      case Err(e) => if e.Exit? then Err(e) else NetFetch(n, urls[1..], fetch)
  }

  /** `_get_amendments_from_net`: the loop over the network's URLs. */
  method AmendmentsFromNet(n: Network, fetch: string -> FetchOutcome) returns (r: Result<(string, Parsed), Failure>)
    ensures r == NetFetch(n, RpcUrls(n), fetch)
  {
    var urls := RpcUrls(n);
    var i := 0;
    while i < |urls|
      invariant 0 <= i <= |urls|
      invariant NetFetch(n, urls, fetch) == NetFetch(n, urls[i..], fetch)
    {
      var a := FromUrl(urls[i], fetch(urls[i]));
      assert urls[i..][1..] == urls[i + 1..];
      if a.Ok? {
        return Ok((urls[i], a.value));
      } else if a.error.Exit? {
        return Err(a.error);
      }
      i := i + 1;
    }
    return Err(RuntimeError(FetchFailedMessage(n)));
  }

  /** Where `get_amendments` reads the features from. */
  datatype Source =
    | FromFile(path: string, content: Option<Parsed>)  // None: the file could not be read or parsed
    | FromUrlSource(url: string, outcome: FetchOutcome)
    | FromNetwork(network: Network)

  /** `get_amendments`: the source's name and the records. */
  function GetAmendments(source: Source, fetch: string -> FetchOutcome): (r: Result<(string, seq<Amendment>), Failure>)
    ensures source.FromUrlSource? ==> r.Err?
    ensures r.Ok? && source.FromFile? ==> r.value.0 == source.path
    ensures r.Ok? && source.FromNetwork? ==> r.value.0 in RpcUrls(source.network)
  {
    match source
    case FromFile(path, content) =>
      if content.None? then Err(AttributeError)
      else
        (match RecordsOf(content.value)
         case Err(e) => Err(e)
         case Ok(records) => Ok((path, records)))
    case FromUrlSource(url, outcome) =>
      (match FromUrl(url, outcome)
       case Err(e) => Err(e)
       case Ok(p) => if p.NotAnObject? then Err(AttributeError) else Err(ExitZero))
    case FromNetwork(n) =>
      match NetFetch(n, RpcUrls(n), fetch)
      case Err(e) => Err(e)
      case Ok((url, p)) =>
        match RecordsOf(p)
        case Err(e) => Err(e)
        case Ok(records) => Ok((url, records))
  }

  // ---------------------------------------------------------------------------
  // Status and the printed listing

  /** `_status`: obsolete before enabled; ranks enabled 0, disabled 1, obsolete 2. */
  function Status(a: Amendment): (r: (string, nat))
    ensures r.1 == 2 <==> a.obsolete
    ensures r.1 == 0 <==> a.enabled && !a.obsolete
    ensures r.1 == 1 <==> !a.enabled && !a.obsolete
    ensures r.0 == ["enabled", "disabled", "obsolete"][r.1]
    ensures r.1 == Rank(a)
  {
    if a.obsolete then ("obsolete", 2)
    else if a.enabled then ("enabled", 0)
    else ("disabled", 1)
  }

  /** The sort key: the rank `_status` gives. */
  function Rank(a: Amendment): nat {
    if a.obsolete then 2 else if a.enabled then 0 else 1
  }

  predicate SortedByRank(s: seq<Amendment>) {
    forall i, j :: 0 <= i < j < |s| ==> Rank(s[i]) <= Rank(s[j])
  }

  /** Insert `x` before the first element whose rank is not below its own. */
  function InsertByRank(x: Amendment, s: seq<Amendment>): seq<Amendment> {
    if |s| == 0 then [x]
    else if Rank(x) <= Rank(s[0]) then [x] + s
    else [s[0]] + InsertByRank(x, s[1..])
  }

  /** `sorted(amendments, key=lambda a: _status(a)[1])`, stable like Python's. */
  function SortByRank(s: seq<Amendment>): (r: seq<Amendment>)
    ensures |r| == |s| && multiset(r) == multiset(s)
  {
    if |s| == 0 then []
    else
      InsertByRankPermutes(s[0], SortByRank(s[1..]));
      assert s == [s[0]] + s[1..];
      InsertByRank(s[0], SortByRank(s[1..]))
  }

  /** The amendments of rank `k`, in order. */
  function WithRank(s: seq<Amendment>, k: nat): seq<Amendment> {
    if |s| == 0 then []
    else (if Rank(s[0]) == k then [s[0]] else []) + WithRank(s[1..], k)
  }

  /** One printed row: name cut and padded to 31, index to 8, status to 9, then the link. */
  function Row(a: Amendment): (r: string)
    ensures |r| >= 33 + |a.index| + |a.link|
    ensures r[..31] == PadRight(Take(a.name, 31), 31)
    ensures r[31..33] == "  " && r[33..33 + |a.index|] == a.index
    ensures r[|r| - |a.link|..] == a.link
  {
    var name := PadRight(Take(a.name, 31), 31);
    var index := PadRight(a.index, 8);
    var status := PadRight(Status(a).0, 9);
    RowCut(name, index, status, a.index, a.link);
    name + "  " + index + "  " + (status + "  " + a.link)
  }

  lemma RowCut(name: string, index: string, status: string, idx: string, link: string)
    requires |name| == 31 && idx <= index
    ensures var r := name + "  " + index + "  " + (status + "  " + link);
      && |r| >= 33 + |idx| + |link|
      && r[..31] == name && r[31..33] == "  " && r[33..33 + |idx|] == idx
      && r[|r| - |link|..] == link
  {
    var rest := status + "  " + link;
    var r := name + "  " + index + "  " + rest;
    assert rest[|rest| - |link|..] == link;
    assert r[33..33 + |index|] == index;
    assert r[|r| - |rest|..] == rest;
  }

  /** The name column is exactly 31 wide: the name cut to 31, padded with spaces. */
  lemma NameColumn(a: Amendment)
    ensures var c := Row(a)[..31];
      && (|a.name| >= 31 ==> c == a.name[..31])
      && (|a.name| < 31 ==> c[..|a.name|] == a.name && forall i :: |a.name| <= i < 31 ==> c[i] == ' ')
  {
  }

  /** `print_amendments`: the rows in status order, then an empty line. */
  function Listing(amendments: seq<Amendment>): (lines: seq<string>)
    ensures |lines| == |amendments| + 1 && lines[|amendments|] == ""
  {
    var sorted := SortByRank(amendments);
    seq(|sorted|, i requires 0 <= i < |sorted| => Row(sorted[i])) + [""]
  }

  // ---------------------------------------------------------------------------
  // Properties

  /**
   * The records: one per entry in order, each with the hash as index, the
   * name defaulting to the hash, the link made from the lower-cased name, and
   * the flags by truthiness with False as default; any entry that is not a
   * dict, or whose name is not a string, makes the whole listing fail.
   */
  lemma {:induction false} RecordsFaithful(entries: seq<(string, Value)>)
    ensures var r := Records(entries);
      && (r.Ok? <==> forall i :: 0 <= i < |entries| ==> WellFormed(entries[i].1))
      && (r.Err? ==> r.error == AttributeError)
      && (r.Ok? ==> |r.value| == |entries| && forall i :: 0 <= i < |entries| ==>
            var (hash, info) := entries[i];
            var a := r.value[i];
            && a.index == hash
            && a.name == (if "name" in info.d then info.d["name"].s else hash)
            && a.link == LinkPrefix + Lower(a.name)
            && (a.enabled <==> "enabled" in info.d && Truthy(info.d["enabled"]))
            && (a.obsolete <==> "obsolete" in info.d && Truthy(info.d["obsolete"])))
  {
    if |entries| > 0 {
      RecordsFaithful(entries[1..]);
      var r := Records(entries);
      if r.Ok? {
        forall i | 0 < i < |entries| ensures WellFormed(entries[i].1) {
          assert entries[1..][i - 1] == entries[i];
        }
        forall i | 0 <= i < |entries|
          ensures var (hash, info) := entries[i];
            var a := r.value[i];
            && a.index == hash
            && a.name == (if "name" in info.d then info.d["name"].s else hash)
            && a.link == LinkPrefix + Lower(a.name)
            && (a.enabled <==> "enabled" in info.d && Truthy(info.d["enabled"]))
            && (a.obsolete <==> "obsolete" in info.d && Truthy(info.d["obsolete"]))
        {
          if i > 0 {
            assert entries[1..][i - 1] == entries[i];
            assert r.value[i] == Records(entries[1..]).value[i - 1];
          }
        }
      } else if WellFormed(entries[0].1) {
        var j :| 0 <= j < |entries[1..]| && !WellFormed(entries[1..][j].1);
        assert entries[1..][j] == entries[j + 1];
      }
    }
  }

  /** An unreadable file, or features that are not an object, end in AttributeError. */
  lemma UnreadableFile(path: string, content: Option<Parsed>, fetch: string -> FetchOutcome)
    requires content.None? || content.value.NotAnObject?
    ensures GetAmendments(FromFile(path, content), fetch) == Err(AttributeError)
  {
  }

  /** A URL source never returns: it exits, with status 0 once the features were read. */
  lemma UrlSourceNeverReturns(url: string, outcome: FetchOutcome, fetch: string -> FetchOutcome)
    ensures var r := GetAmendments(FromUrlSource(url, outcome), fetch);
      && r.Err?
      && (outcome.Fetched? && outcome.features.Object? ==> r.error == ExitZero)
      && (outcome.Unreachable? || outcome.MissingKey? ==> r.error.Exit?)
  {
  }

  /** The position of the first URL whose fetch does not fail, or `|urls|`. */
  function FirstNotFailed(urls: seq<string>, fetch: string -> FetchOutcome): (i: nat)
    ensures i <= |urls|
    ensures forall j :: 0 <= j < i ==> fetch(urls[j]).Failed?
    ensures i < |urls| ==> !fetch(urls[i]).Failed?
  {
    if |urls| == 0 then 0
    else if fetch(urls[0]).Failed? then
      var k := FirstNotFailed(urls[1..], fetch);
      assert forall j :: 1 <= j < k + 1 ==> urls[j] == urls[1..][j - 1];
      k + 1
    else 0
  }

  /**
   * The fallback decides on the first URL whose fetch does not fail: it
   * returns that URL with its features, or ends with its SystemExit; if every
   * URL fails, the result is the RuntimeError with the network's number.
   */
  lemma {:induction false} NetFetchFirst(n: Network, urls: seq<string>, fetch: string -> FetchOutcome)
    ensures var r := NetFetch(n, urls, fetch);
      var i := FirstNotFailed(urls, fetch);
      && (i == |urls| ==> r == Err(RuntimeError(FetchFailedMessage(n))))
      && (i < |urls| && fetch(urls[i]).Fetched? ==> r == Ok((urls[i], fetch(urls[i]).features)))
      && (i < |urls| && !fetch(urls[i]).Fetched? ==> r.Err? && r.error.Exit?)
  {
    if |urls| > 0 && fetch(urls[0]).Failed? {
      NetFetchFirst(n, urls[1..], fetch);
      var k := FirstNotFailed(urls[1..], fetch);
      if k < |urls| - 1 {
        assert urls[1..][k] == urls[k + 1];
      }
    }
  }

  /** `sorted` by rank: in rank order, and a permutation of its input. */
  lemma {:induction false} SortByRankProperties(s: seq<Amendment>)
    ensures SortedByRank(SortByRank(s))
    ensures multiset(SortByRank(s)) == multiset(s) && |SortByRank(s)| == |s|
  {
    if |s| > 0 {
      SortByRankProperties(s[1..]);
      InsertByRankSorted(s[0], SortByRank(s[1..]));
      InsertByRankPermutes(s[0], SortByRank(s[1..]));
      assert s == [s[0]] + s[1..];
    }
  }

  /** Within one rank the listing keeps the input order, since the sort is stable. */
  lemma {:induction false} SortByRankStable(s: seq<Amendment>, k: nat)
    ensures WithRank(SortByRank(s), k) == WithRank(s, k)
  {
    if |s| > 0 {
      SortByRankStable(s[1..], k);
      InsertByRankStable(s[0], SortByRank(s[1..]), k);
    }
  }

  lemma {:induction false} InsertByRankPermutes(x: Amendment, s: seq<Amendment>)
    ensures multiset(InsertByRank(x, s)) == multiset(s) + multiset{x}
    ensures |InsertByRank(x, s)| == |s| + 1
  {
    if |s| > 0 && Rank(x) > Rank(s[0]) {
      InsertByRankPermutes(x, s[1..]);
      assert s == [s[0]] + s[1..];
    }
  }

  lemma {:induction false} InsertByRankSorted(x: Amendment, s: seq<Amendment>)
    requires SortedByRank(s)
    ensures SortedByRank(InsertByRank(x, s))
  {
    if |s| > 0 && Rank(x) > Rank(s[0]) {
      var t := s[1..];
      InsertByRankSorted(x, t);
      InsertByRankPermutes(x, t);
      var r := InsertByRank(x, t);
      forall j | 0 <= j < |r| ensures Rank(s[0]) <= Rank(r[j]) {
        assert r[j] in multiset(r);
        if r[j] != x {
          assert r[j] in multiset(t);
          var i :| 0 <= i < |t| && t[i] == r[j];
          assert s[i + 1] == r[j];
        }
      }
    }
  }

  lemma {:induction false} InsertByRankStable(x: Amendment, s: seq<Amendment>, k: nat)
    ensures WithRank(InsertByRank(x, s), k) == (if Rank(x) == k then [x] else []) + WithRank(s, k)
  {
    if |s| == 0 {
      assert [x][1..] == [];
    } else if Rank(x) <= Rank(s[0]) {
      assert ([x] + s)[1..] == s;
    } else {
      var t := s[1..];
      InsertByRankStable(x, t, k);
      var r := [s[0]] + InsertByRank(x, t);
      assert r[0] == s[0] && r[1..] == InsertByRank(x, t);
    }
  }

  /** The listing's rows: every amendment once, enabled before disabled before obsolete. */
  lemma ListingOrder(amendments: seq<Amendment>)
    ensures var lines := Listing(amendments);
      var sorted := SortByRank(amendments);
      && multiset(sorted) == multiset(amendments)
      && (forall i :: 0 <= i < |amendments| ==> lines[i] == Row(sorted[i]))
      && (forall i, j :: 0 <= i < j < |amendments| ==> Rank(sorted[i]) <= Rank(sorted[j]))
  {
    ListingRows(amendments);
    SortByRankProperties(amendments);
  }

  lemma ListingRows(amendments: seq<Amendment>)
    ensures forall i :: 0 <= i < |amendments| ==> Listing(amendments)[i] == Row(SortByRank(amendments)[i])
  {
  }
}
