/**
 * The "are the validators closing ledgers" check: which validators are
 * checked, the verdict on one validator from its `server_info` reply and its
 * ledger wait, the wait's termination rule, and how the verdicts combine.
 * Replies and ledger observations are inputs; the concurrent fan-out is
 * replaced by one reply per validator URL.
 */
module ValidatorsClosing {
  import opened Wrappers
  import opened Values
  import opened Text

  const NumValidators: nat := 5
  const ValidatorName := "atval"

  /** `f"http://{base_name}{vnum}:5005"`. */
  function Url(baseName: string, vnum: int): (r: string)
    ensures |r| >= 12 && r[..7] == "http://" && r[|r| - 5..] == ":5005"
  {
    "http://" + baseName + IntToString(vnum) + ":5005"
  }

  /** Different validator numbers are asked at different URLs. */
  lemma UrlInjective(baseName: string, v: int, w: int)
    ensures Url(baseName, v) == Url(baseName, w) <==> v == w
  {
    var a, b := IntToString(v), IntToString(w);
    var head := "http://" + baseName;
    assert Url(baseName, v) == head + a + ":5005";
    assert Url(baseName, w) == head + b + ":5005";
    if Url(baseName, v) == Url(baseName, w) {
      assert |a| == |b|;
      assert a == Url(baseName, v)[|head|..|head| + |a|];
      assert b == Url(baseName, w)[|head|..|head| + |b|];
      IntToStringInjective(v, w);
    }
  }

  /**
   * The validator numbers to check: `None` when the requested number is
   * above the count (the check answers False without asking anyone); all of
   * 1..n when none (or 0) is requested; otherwise just the requested one.
   */
  function ValidatorNumbers(valToCheck: Option<int>, n: nat): (r: Option<seq<int>>)
    ensures r.None? <==> valToCheck.Some? && valToCheck.value != 0 && valToCheck.value > n
    ensures r.Some? ==> forall i :: 0 <= i < |r.value| ==> r.value[i] <= n
  {
    var requested := valToCheck.Some? && valToCheck.value != 0;
    if requested && valToCheck.value > n then None
    else if requested then Some([valToCheck.value])
    else Some(seq(n, v requires 0 <= v < n => v + 1))
  }

  // ---------------------------------------------------------------------------
  // Waiting for a ledger to close

  /** The outcome of the wait over a finite run of observations. */
  datatype WaitResult = Arrived(at: nat) | WaitRaised | StillWaiting

  /**
   * `wait_for_ledger_close` over the validated ledger indexes it reads in
   * turn (`None`: the read raised): the target is the first reading plus one,
   * and the wait ends at the first later reading at or above it.
   */
  function WaitSpec(obs: seq<Option<int>>, from: nat): WaitResult
    requires 1 <= from <= |obs| && obs[0].Some?
    decreases |obs| - from
  {
    if from == |obs| then StillWaiting
    else if obs[from].None? then WaitRaised
    else if obs[from].value >= obs[0].value + 1 then Arrived(from)
    else WaitSpec(obs, from + 1)
  }

  function Wait(obs: seq<Option<int>>): (r: WaitResult)
    ensures r.Arrived? ==> 1 <= r.at < |obs| && obs[0].Some? && obs[r.at].Some?
                           && obs[r.at].value >= obs[0].value + 1
    ensures r.StillWaiting? && |obs| > 0 ==>
      obs[0].Some? && forall j :: 1 <= j < |obs| ==> obs[j].Some? && obs[j].value < obs[0].value + 1
  {
    if |obs| == 0 then StillWaiting
    else if obs[0].None? then WaitRaised
    else WaitArrives(obs, 1); WaitSpec(obs, 1)
  }

  /** The polling loop itself. */
  method WaitForLedgerClose(obs: seq<Option<int>>) returns (r: WaitResult)
    ensures r == Wait(obs)
  {
    if |obs| == 0 {
      return StillWaiting;
    }
    if obs[0].None? {
      return WaitRaised;
    }
    var target := obs[0].value + 1;
    var i := 1;
    while i < |obs|
      invariant 1 <= i <= |obs|
      invariant WaitSpec(obs, 1) == WaitSpec(obs, i)
      decreases |obs| - i
    {
      var current := obs[i];
      if current.None? {
        return WaitRaised;
      }
      if current.value >= target {
        return Arrived(i);
      }
      i := i + 1;
    }
    return StillWaiting;
  }

  /**
   * The wait returns only at a reading at or above the first reading plus
   * one, after readings that were all below it and none of which raised.
   */
  lemma {:induction false} WaitArrives(obs: seq<Option<int>>, from: nat)
    requires 1 <= from <= |obs| && obs[0].Some?
    ensures var r := WaitSpec(obs, from);
      && (r.Arrived? ==> (from <= r.at < |obs| && obs[r.at].Some? && obs[r.at].value >= obs[0].value + 1
                          && forall j :: from <= j < r.at ==> obs[j].Some? && obs[j].value < obs[0].value + 1))
      && (r.StillWaiting? ==> forall j :: from <= j < |obs| ==> obs[j].Some? && obs[j].value < obs[0].value + 1)
    decreases |obs| - from
  {
    if from < |obs| && obs[from].Some? && obs[from].value < obs[0].value + 1 {
      WaitArrives(obs, from + 1);
    }
  }

  // ---------------------------------------------------------------------------
  // One validator

  /** How the wait ended for a validator. */
  datatype WaitEnd = Closed | WaitFailed

  /** What asking one validator for `server_info` gives. */
  datatype Reply =
    | ConnectTimeout
    | ConnectError
    | HTTPStatusError
    | RequestFailed               // any other exception from the request
    | Answered(info: Option<Value>, wait: WaitEnd)  // None: `json()["result"]["info"]` raised

  /** The outcome of one validator's task. */
  datatype Verdict = Verdict(ok: bool) | Raised | Exit(code: int)

  /**
   * `check_single_validator`: a timeout or an HTTP error status gives False,
   * a connection error exits the process with status 1, a reply whose info
   * cannot be read raises, a state other than "proposing" gives False, and a
   * proposing validator is True exactly when the ledger wait succeeds.
   */
  function CheckSingle(reply: Reply): (r: Verdict)
    ensures r.Exit? <==> reply == ConnectError
    ensures r.Raised? <==> reply == RequestFailed || (reply.Answered? && (reply.info.None? || !reply.info.value.VDict?))
    ensures r == Verdict(true) ==> reply.Answered? && reply.wait == Closed
  {
    match reply
    case ConnectTimeout => Verdict(false)
    case ConnectError => Exit(1)
    case HTTPStatusError => Verdict(false)
    case RequestFailed => Raised
    case Answered(info, wait) =>
      if info.None? || !info.value.VDict? then Raised
      else if "server_state" !in info.value.d || info.value.d["server_state"] != VStr("proposing") then Verdict(false)
      else Verdict(wait == Closed)
  }

  /** True only for a proposing validator whose ledger wait succeeded. */
  lemma SingleTrueIff(reply: Reply)
    ensures CheckSingle(reply) == Verdict(true) <==>
      reply.Answered? && reply.info.Some? && reply.info.value.VDict?
      && "server_state" in reply.info.value.d && reply.info.value.d["server_state"] == VStr("proposing")
      && reply.wait == Closed
    ensures CheckSingle(reply).Exit? <==> reply == ConnectError
  {
  }

  // ---------------------------------------------------------------------------
  // All validators

  /** The loop over the gathered results: the first exception or False decides. */
  method Aggregate(results: seq<Verdict>) returns (ok: bool)
    ensures ok <==> forall i :: 0 <= i < |results| ==> results[i] == Verdict(true)
  {
    for i := 0 to |results|
      invariant forall j :: 0 <= j < i ==> results[j] == Verdict(true)
    {
      if results[i].Raised? || results[i].Exit? {
        return false;
      }
      if !results[i].ok {
        return false;
      }
    }
    return true;
  }

  /** The verdicts of the validators `numbers`, from the reply at each one's URL. */
  function Verdicts(numbers: seq<int>, replies: string -> Reply): (r: seq<Verdict>)
    ensures |r| == |numbers|
  {
    seq(|numbers|, i requires 0 <= i < |numbers| => CheckSingle(replies(Url(ValidatorName, numbers[i]))))
  }

  /**
   * `check_validator_proposing`: a connection error in any task ends the
   * whole run with status 1 (SystemExit is not collected by `gather`);
   * otherwise True exactly when every checked validator's verdict is True.
   */
  method CheckValidatorProposing(valToCheck: Option<int>, replies: string -> Reply) returns (r: Verdict)
    ensures r.Exit? <==> (ValidatorNumbers(valToCheck, NumValidators).Some? &&
      exists i :: 0 <= i < |ValidatorNumbers(valToCheck, NumValidators).value| &&
        replies(Url(ValidatorName, ValidatorNumbers(valToCheck, NumValidators).value[i])) == ConnectError)
    ensures r == Verdict(true) <==> (ValidatorNumbers(valToCheck, NumValidators).Some? &&
      forall i :: 0 <= i < |ValidatorNumbers(valToCheck, NumValidators).value| ==>
        CheckSingle(replies(Url(ValidatorName, ValidatorNumbers(valToCheck, NumValidators).value[i]))) == Verdict(true))
    ensures !r.Raised?
  {
    var numbers := ValidatorNumbers(valToCheck, NumValidators);
    if numbers.None? {
      return Verdict(false);
    }
    var results := Verdicts(numbers.value, replies);
    forall i | 0 <= i < |results|
      ensures results[i].Exit? <==> replies(Url(ValidatorName, numbers.value[i])) == ConnectError
    {
      SingleTrueIff(replies(Url(ValidatorName, numbers.value[i])));
    }
    if exists i :: 0 <= i < |results| && results[i].Exit? {
      return Exit(1);
    }
    var ok := Aggregate(results);
    return Verdict(ok);
  }

  /** A requested number above the count answers False without asking anyone. */
  lemma OutOfRange(valToCheck: int)
    requires valToCheck > NumValidators
    ensures ValidatorNumbers(Some(valToCheck), NumValidators).None?
  {
  }

  /** No request (or 0) checks every validator 1..n; a request checks just that one. */
  lemma SelectionRule(valToCheck: Option<int>, n: nat)
    ensures valToCheck.None? || valToCheck.value == 0 ==>
      ValidatorNumbers(valToCheck, n) == Some(seq(n, v requires 0 <= v < n => v + 1))
    ensures valToCheck.Some? && valToCheck.value != 0 && valToCheck.value <= n ==>
      ValidatorNumbers(valToCheck, n) == Some([valToCheck.value])
    ensures ValidatorNumbers(valToCheck, n).Some? ==>
      forall i :: 0 <= i < |ValidatorNumbers(valToCheck, n).value| ==> ValidatorNumbers(valToCheck, n).value[i] <= n
  {
  }
}
