/**
 * The workload's `utils` helpers: the 7-character address shortener, the
 * currency text built with it, and the "are the validators proposing" check,
 * which walks the validators one after the other. The HTTP replies and the
 * ledger readings of each validator URL are inputs.
 */
module WorkloadUtils {
  import opened Wrappers
  import opened Values
  import opened Text
  import Currency
  import ValidatorsClosing

  /** `short_address`: the first 7 characters. */
  function ShortAddress(address: string): (r: string)
    ensures |r| == if |address| < 7 then |address| else 7
    ensures r <= address
  {
    Take(address, 7)
  }

  /** `format_currency`, dict / IssuedCurrency / IssuedCurrencyAmount branch. */
  function FormatCurrency(c: Currency.Amount, short: bool): (r: Result<string, Currency.FormatError>)
    ensures r.Err? <==> short && Currency.IssuerOf(c).None?
  {
    Currency.Format(c, short, ShortAddress)
  }

  /** `format_currency_short`: always with the issuer shortened. */
  function FormatCurrencyShort(c: Currency.Amount): (r: Result<string, Currency.FormatError>)
    ensures r.Err? <==> Currency.IssuerOf(c).None?
    ensures r.Ok? ==> var tail := Currency.Shown(Currency.CodeOf(c)) + "." + ShortAddress(Currency.IssuerOf(c).value);
      |r.value| >= |tail| && r.value[|r.value| - |tail|..] == tail
  {
    Currency.FormatLayout(c, true, ShortAddress);
    FormatCurrency(c, true)
  }

  /** Issued currencies format as "<code>.<issuer>", the issuer cut to 7 characters when short. */
  lemma IssuedCurrencyText(issuer: string, codes: seq<string>, i: nat, short: bool)
    requires i < |codes|
    ensures FormatCurrency(Currency.IssueCurrencies(issuer, codes)[i], short)
      == Ok(codes[i] + "." + (if short then ShortAddress(issuer) else issuer))
  {
    Currency.IssuedFormats(issuer, codes, i, short, ShortAddress);
  }

  // ---------------------------------------------------------------------------
  // check_validator_proposing

  /** The reply to the `server_info` request: `info` is None when reading `["result"]["info"]` raises. */
  datatype Resp = Resp(ok: bool, info: Option<Value>)

  /**
   * What `requests.post(url, ...)` gives: a reply, or one of the exceptions
   * it raises. `RequestFailed` is any other `RequestException` (a
   * `ReadTimeout`, say), which the `try` does not catch.
   */
  datatype Post = ConnectTimeout | ConnectionError | RequestFailed | Responded(resp: Resp)

  datatype Exc = UnboundLocalError | RequestException | OtherException

  /** How the check ends: an answer, a process exit, an exception, or a poll that never sees a new ledger. */
  datatype Outcome = Answer(ok: bool) | Exit(code: int) | Raised(e: Exc) | Polling

  /** The loop state: the flags recorded so far and the last `response` bound, if any. */
  datatype Scan = Scan(flags: map<int, bool>, response: Option<Resp>)

  /** `f"http://{val_name}{vnum}:5005"`. */
  function UrlOf(valName: string, vnum: int): string {
    "http://" + valName + IntToString(vnum) + ":5005"
  }

  /**
   * The validator numbers visited: `None` when a truthy request is above the
   * count (the answer is False at once); `[val_to_check - 1]` for any request
   * that is not None, 0 included; otherwise `range(num_validators)`.
   */
  function Vnums(valToCheck: Option<int>, numValidators: int): (r: Option<seq<int>>)
    ensures r.None? <==> valToCheck.Some? && valToCheck.value != 0 && valToCheck.value > numValidators
    ensures valToCheck.Some? && r.Some? ==> r.value == [valToCheck.value - 1]
    ensures valToCheck.None? ==> forall i :: 0 <= i < |r.value| ==> r.value[i] == i
  {
    if valToCheck.Some? && valToCheck.value != 0 && valToCheck.value > numValidators then None
    else if valToCheck.Some? then Some([valToCheck.value - 1])
    else Some(seq(if numValidators < 0 then 0 else numValidators, i requires 0 <= i => i))
  }

  /** A dict's `server_state` is "proposing". */
  predicate Proposing(info: map<string, Value>) {
    "server_state" in info && info["server_state"] == VStr("proposing")
  }

  /**
   * Lines 105-125 for one validator: an error status records False; an
   * unreadable info raises; a proposing validator polls its ledger until it
   * advances and records True; any other state records False.
   */
  function Handle(flags: map<int, bool>, vnum: int, resp: Resp, readings: seq<Option<int>>): Result<map<int, bool>, Outcome> {
    if !resp.ok then Ok(flags[vnum := false])
    else if resp.info.None? || !resp.info.value.VDict? then Err(Raised(OtherException))
    else if Proposing(resp.info.value.d) then
      match ValidatorsClosing.Wait(readings)
      case Arrived(_) => Ok(flags[vnum := true])
      case WaitRaised => Err(Raised(OtherException))
      case StillWaiting => Err(Polling)
    else Ok(flags[vnum := false])
  }

  /**
   * One pass of the loop as written: after a ConnectTimeout the code records
   * False and then goes on to `response.ok` anyway, reading the previous
   * validator's response, or failing when none was bound yet.
   */
  function StepAsWritten(st: Scan, vnum: int, post: Post, readings: seq<Option<int>>): Result<Scan, Outcome> {
    match post
    case ConnectionError => Err(Exit(1))
    case RequestFailed => Err(Raised(RequestException))
    case ConnectTimeout =>
      if st.response.None? then Err(Raised(UnboundLocalError))
      else
        (match Handle(st.flags[vnum := false], vnum, st.response.value, readings)
         case Err(o) => Err(o)
         case Ok(f) => Ok(Scan(f, st.response)))
    case Responded(r) =>
      match Handle(st.flags, vnum, r, readings)
      case Err(o) => Err(o)
      case Ok(f) => Ok(Scan(f, Some(r)))
  }

  function RunAsWritten(vnums: seq<int>, valName: string, posts: string -> Post, ledgers: string -> seq<Option<int>>)
    : (r: Result<Scan, Outcome>)
    ensures r.Err? ==> !r.error.Answer? && (r.error.Exit? ==> r.error.code == 1)
  {
    if |vnums| == 0 then Ok(Scan(map[], None))
    else
      match RunAsWritten(vnums[..|vnums| - 1], valName, posts, ledgers)
      case Err(o) => Err(o)
      case Ok(st) =>
        var url := UrlOf(valName, vnums[|vnums| - 1]);
        StepAsWritten(st, vnums[|vnums| - 1], posts(url), ledgers(url))
  }

  /** `all(validators_proposing.values())`. */
  predicate AllTrue(flags: map<int, bool>) {
    forall k :: k in flags ==> flags[k]
  }

  function CheckAsWritten(valToCheck: Option<int>, numValidators: int, valName: string,
                          posts: string -> Post, ledgers: string -> seq<Option<int>>): (r: Outcome)
    ensures Vnums(valToCheck, numValidators).None? ==> r == Answer(false)
    ensures r.Exit? ==> r == Exit(1)
  {
    match Vnums(valToCheck, numValidators)
    case None => Answer(false)
    case Some(vnums) =>
      match RunAsWritten(vnums, valName, posts, ledgers)
      case Err(o) => o
      case Ok(st) => Answer(AllTrue(st.flags))
  }

  /** The polling loop: read the ledger, then read again until it is above the first reading. */
  method PollLedger(readings: seq<Option<int>>) returns (r: ValidatorsClosing.WaitResult)
    ensures r == ValidatorsClosing.Wait(readings)
  {
    if |readings| == 0 {
      return ValidatorsClosing.StillWaiting;
    }
    if readings[0].None? {
      return ValidatorsClosing.WaitRaised;
    }
    var lastLedger := readings[0].value;
    var i := 1;
    while i < |readings|
      invariant 1 <= i <= |readings|
      invariant ValidatorsClosing.WaitSpec(readings, 1) == ValidatorsClosing.WaitSpec(readings, i)
      decreases |readings| - i
    {
      if readings[i].None? {
        return ValidatorsClosing.WaitRaised;
      }
      if !(readings[i].value <= lastLedger) {
        return ValidatorsClosing.Arrived(i);
      }
      i := i + 1;
    }
    return ValidatorsClosing.StillWaiting;
  }

  /** `check_validator_proposing` as written, with its environment values as parameters. */
  method CheckValidatorProposing(valToCheck: Option<int>, numValidators: int, valName: string,
                                 posts: string -> Post, ledgers: string -> seq<Option<int>>) returns (r: Outcome)
    ensures r == CheckAsWritten(valToCheck, numValidators, valName, posts, ledgers)
  {
    var range := Vnums(valToCheck, numValidators);
    if range.None? {
      return Answer(false);
    }
    var vnums := range.value;
    var flags: map<int, bool> := map[];
    var response: Option<Resp> := None;
    for i := 0 to |vnums|
      invariant RunAsWritten(vnums[..i], valName, posts, ledgers) == Ok(Scan(flags, response))
    {
      var vnum := vnums[i];
      var url := UrlOf(valName, vnum);
      assert vnums[..i + 1][..i] == vnums[..i];
      var post := posts(url);
      if post.ConnectionError? {
        assert RunAsWritten(vnums[..i + 1], valName, posts, ledgers) == Err(Exit(1));
        RunStopsAt(vnums, i + 1, valName, posts, ledgers);
        return Exit(1);
      } else if post.RequestFailed? {
        assert RunAsWritten(vnums[..i + 1], valName, posts, ledgers) == Err(Raised(RequestException));
        RunStopsAt(vnums, i + 1, valName, posts, ledgers);
        return Raised(RequestException);
      } else if post.ConnectTimeout? {
        flags := flags[vnum := false];
      } else {
        response := Some(post.resp);
      }
      if response.None? {
        RunStopsAt(vnums, i + 1, valName, posts, ledgers);
        return Raised(UnboundLocalError);
      }
      var handled := HandleResponse(flags, vnum, response.value, ledgers(url));
      if handled.Err? {
        RunStopsAt(vnums, i + 1, valName, posts, ledgers);
        return handled.error;
      }
      flags := handled.value;
    }
    assert vnums[..|vnums|] == vnums;
    return Answer(AllTrue(flags));
  }

  /** Lines 105-125 for one validator, with the polling loop. */
  method HandleResponse(flags: map<int, bool>, vnum: int, resp: Resp, readings: seq<Option<int>>)
    returns (r: Result<map<int, bool>, Outcome>)
    ensures r == Handle(flags, vnum, resp, readings)
  {
    if !resp.ok {
      return Ok(flags[vnum := false]);
    }
    if resp.info.None? || !resp.info.value.VDict? {
      return Err(Raised(OtherException));
    }
    if Proposing(resp.info.value.d) {
      var w := PollLedger(readings);
      if w.Arrived? {
        return Ok(flags[vnum := true]);
      } else if w.WaitRaised? {
        return Err(Raised(OtherException));
      }
      return Err(Polling);
    }
    return Ok(flags[vnum := false]);
  }

  /** A run that stopped on a prefix stays stopped with the same outcome. */
  lemma {:induction false} RunStopsAt(vnums: seq<int>, n: nat, valName: string, posts: string -> Post, ledgers: string -> seq<Option<int>>)
    requires n <= |vnums| && RunAsWritten(vnums[..n], valName, posts, ledgers).Err?
    ensures RunAsWritten(vnums, valName, posts, ledgers) == RunAsWritten(vnums[..n], valName, posts, ledgers)
    decreases |vnums| - n
  {
    if n < |vnums| {
      assert vnums[..n + 1][..n] == vnums[..n];
      RunStopsAt(vnums, n + 1, valName, posts, ledgers);
    } else {
      assert vnums[..n] == vnums;
    }
  }

  // ---------------------------------------------------------------------------
  // The intended check: a timed-out validator is recorded False and skipped

  /** A validator passes: it answered, is proposing, and its ledger advanced. */
  predicate Passes(post: Post, readings: seq<Option<int>>) {
    && post.Responded? && post.resp.ok && post.resp.info.Some? && post.resp.info.value.VDict?
    && Proposing(post.resp.info.value.d)
    && ValidatorsClosing.Wait(readings).Arrived?
  }

  function StepCorrected(flags: map<int, bool>, vnum: int, post: Post, readings: seq<Option<int>>): Result<map<int, bool>, Outcome> {
    match post
    case ConnectionError => Err(Exit(1))
    case RequestFailed => Err(Raised(RequestException))
    case ConnectTimeout => Ok(flags[vnum := false])
    case Responded(r) => Handle(flags, vnum, r, readings)
  }

  function RunCorrected(vnums: seq<int>, valName: string, posts: string -> Post, ledgers: string -> seq<Option<int>>)
    : (r: Result<map<int, bool>, Outcome>)
    ensures r.Err? ==> !r.error.Answer? && (r.error.Exit? ==> r.error.code == 1) && r.error != Raised(UnboundLocalError)
  {
    if |vnums| == 0 then Ok(map[])
    else
      match RunCorrected(vnums[..|vnums| - 1], valName, posts, ledgers)
      case Err(o) => Err(o)
      case Ok(flags) =>
        var url := UrlOf(valName, vnums[|vnums| - 1]);
        StepCorrected(flags, vnums[|vnums| - 1], posts(url), ledgers(url))
  }

  function CheckCorrected(valToCheck: Option<int>, numValidators: int, valName: string,
                          posts: string -> Post, ledgers: string -> seq<Option<int>>): (r: Outcome)
    ensures Vnums(valToCheck, numValidators).None? ==> r == Answer(false)
    ensures r.Exit? ==> r == Exit(1)
    ensures r != Raised(UnboundLocalError)
  {
    match Vnums(valToCheck, numValidators)
    case None => Answer(false)
    case Some(vnums) =>
      match RunCorrected(vnums, valName, posts, ledgers)
      case Err(o) => o
      case Ok(flags) => Answer(AllTrue(flags))
  }

  /**
   * In the corrected loop, a completed run records exactly the visited
   * validators, each with whether it passes.
   */
  lemma {:induction false} CorrectedFlags(vnums: seq<int>, valName: string, posts: string -> Post, ledgers: string -> seq<Option<int>>)
    requires RunCorrected(vnums, valName, posts, ledgers).Ok?
    ensures var flags := RunCorrected(vnums, valName, posts, ledgers).value;
      && (forall k :: k in flags <==> k in vnums)
      && (forall k :: k in flags ==> flags[k] == Passes(posts(UrlOf(valName, k)), ledgers(UrlOf(valName, k))))
  {
    if |vnums| > 0 {
      var init := vnums[..|vnums| - 1];
      var last := vnums[|vnums| - 1];
      CorrectedFlags(init, valName, posts, ledgers);
      var url := UrlOf(valName, last);
      StepRecordsPass(RunCorrected(init, valName, posts, ledgers).value, last, posts(url), ledgers(url));
      assert vnums == init + [last];
    }
  }

  /** A corrected step that goes on records whether its validator passes. */
  lemma StepRecordsPass(flags: map<int, bool>, vnum: int, post: Post, readings: seq<Option<int>>)
    requires StepCorrected(flags, vnum, post, readings).Ok?
    ensures StepCorrected(flags, vnum, post, readings).value == flags[vnum := Passes(post, readings)]
  {
  }

  /**
   * The intended promise: True exactly when every visited validator
   * answered, is proposing and saw its ledger advance; a timed-out validator
   * makes the answer False.
   */
  lemma CorrectedAnswer(valToCheck: Option<int>, numValidators: int, valName: string,
                        posts: string -> Post, ledgers: string -> seq<Option<int>>)
    requires Vnums(valToCheck, numValidators).Some?
    requires RunCorrected(Vnums(valToCheck, numValidators).value, valName, posts, ledgers).Ok?
    ensures var vnums := Vnums(valToCheck, numValidators).value;
      CheckCorrected(valToCheck, numValidators, valName, posts, ledgers) == Answer(true) <==>
        forall i :: 0 <= i < |vnums| ==> Passes(posts(UrlOf(valName, vnums[i])), ledgers(UrlOf(valName, vnums[i])))
  {
    var vnums := Vnums(valToCheck, numValidators).value;
    CorrectedFlags(vnums, valName, posts, ledgers);
  }

  /** Without timeouts the loop as written and the intended loop record the same flags. */
  lemma {:induction false} RunsAgree(vnums: seq<int>, valName: string, posts: string -> Post, ledgers: string -> seq<Option<int>>)
    requires forall i :: 0 <= i < |vnums| ==> posts(UrlOf(valName, vnums[i])) != ConnectTimeout
    ensures match RunAsWritten(vnums, valName, posts, ledgers)
      case Err(o) => RunCorrected(vnums, valName, posts, ledgers) == Err(o)
      case Ok(st) => RunCorrected(vnums, valName, posts, ledgers) == Ok(st.flags)
  {
    if |vnums| > 0 {
      var init := vnums[..|vnums| - 1];
      assert forall i :: 0 <= i < |init| ==> init[i] == vnums[i];
      RunsAgree(init, valName, posts, ledgers);
    }
  }

  /** The two checks differ only when some validator times out. */
  lemma AgreeWithoutTimeouts(valToCheck: Option<int>, numValidators: int, valName: string,
                             posts: string -> Post, ledgers: string -> seq<Option<int>>)
    requires Vnums(valToCheck, numValidators).Some? ==>
      forall i :: 0 <= i < |Vnums(valToCheck, numValidators).value| ==>
        posts(UrlOf(valName, Vnums(valToCheck, numValidators).value[i])) != ConnectTimeout
    ensures CheckAsWritten(valToCheck, numValidators, valName, posts, ledgers)
      == CheckCorrected(valToCheck, numValidators, valName, posts, ledgers)
  {
    if Vnums(valToCheck, numValidators).Some? {
      RunsAgree(Vnums(valToCheck, numValidators).value, valName, posts, ledgers);
    }
  }

  /** With no validators to visit, `all()` of nothing is True. */
  lemma NoValidatorsIsTrue(numValidators: int, valName: string, posts: string -> Post, ledgers: string -> seq<Option<int>>)
    requires numValidators <= 0
    ensures CheckAsWritten(None, numValidators, valName, posts, ledgers) == Answer(true)
    ensures CheckCorrected(None, numValidators, valName, posts, ledgers) == Answer(true)
  {
  }

  /** The visited numbers: 0-based over the whole range, or just the request minus one. */
  lemma VnumsRule(valToCheck: Option<int>, numValidators: int)
    ensures valToCheck.Some? && valToCheck.value != 0 && valToCheck.value > numValidators ==> Vnums(valToCheck, numValidators).None?
    ensures valToCheck.Some? && (valToCheck.value == 0 || valToCheck.value <= numValidators) ==>
      Vnums(valToCheck, numValidators) == Some([valToCheck.value - 1])
    ensures valToCheck.None? && numValidators >= 0 ==>
      var r := Vnums(valToCheck, numValidators).value;
      |r| == numValidators && forall i :: 0 <= i < |r| ==> r[i] == i
  {
  }

  // ---------------------------------------------------------------------------
  // The discrepancy, on concrete inputs

  /** A proposing, healthy reply. */
  const Healthy := Resp(true, Some(VDict(map["server_state" := VStr("proposing")])))

  /**
   * Two validators, the first healthy, the second timing out, both ledgers
   * advancing: as written the timed-out validator inherits the first one's
   * reply and the check answers True; the intended check answers False.
   */
  lemma StaleResponseCounterexample(posts: string -> Post, ledgers: string -> seq<Option<int>>)
    requires posts(UrlOf("val", 0)) == Responded(Healthy) && posts(UrlOf("val", 1)) == ConnectTimeout
    requires ledgers(UrlOf("val", 0)) == [Some(1), Some(2)] && ledgers(UrlOf("val", 1)) == [Some(1), Some(2)]
    ensures CheckAsWritten(None, 2, "val", posts, ledgers) == Answer(true)
    ensures CheckCorrected(None, 2, "val", posts, ledgers) == Answer(false)
  {
    var vnums := Vnums(None, 2).value;
    assert vnums == [0, 1];
    assert vnums[..1] == [0] && [0][..0] == [];
    assert ValidatorsClosing.Wait([Some(1), Some(2)]) == ValidatorsClosing.Arrived(1);
    var f := map[0 := true];
    assert RunAsWritten([0], "val", posts, ledgers) == Ok(Scan(f, Some(Healthy)));
    assert [0, 1][..1] == [0];
    assert Proposing(Healthy.info.value.d);
    var g := f[1 := false][1 := true];
    assert Handle(f[1 := false], 1, Healthy, ledgers(UrlOf("val", 1))) == Ok(g);
    assert RunAsWritten([0, 1], "val", posts, ledgers) == Ok(Scan(g, Some(Healthy)));
    assert forall k :: k in g ==> k == 0 || k == 1;
    assert RunCorrected([0], "val", posts, ledgers) == Ok(f);
    assert RunCorrected([0, 1], "val", posts, ledgers) == Ok(f[1 := false]);
    assert 1 in f[1 := false];
  }

  /** A first validator that times out: as written the check raises UnboundLocalError; intended, False. */
  lemma FirstTimeoutCounterexample(posts: string -> Post, ledgers: string -> seq<Option<int>>)
    requires posts(UrlOf("val", 0)) == ConnectTimeout
    ensures CheckAsWritten(None, 1, "val", posts, ledgers) == Raised(UnboundLocalError)
    ensures CheckCorrected(None, 1, "val", posts, ledgers) == Answer(false)
  {
    var vnums := Vnums(None, 1).value;
    assert vnums == [0];
    assert vnums[..0] == [];
    assert RunCorrected([0], "val", posts, ledgers) == Ok(map[0 := false]);
    assert 0 in map[0 := false];
  }
}
