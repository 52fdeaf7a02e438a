/**
 * Issued currencies and the text both workload `utils` modules give them:
 * "<value> <currency>.<issuer>", with the issuer shortened on request. Only
 * the dict / IssuedCurrency / IssuedCurrencyAmount branch is modelled; each
 * module supplies its own address shortener.
 */
module Currency {
  import opened Wrappers

  /** An amount or currency as the formatter receives it. */
  datatype Amount =
    | AmountDict(fields: map<string, string>)                       // `dict[str, str]`
    | IssuedCurrency(issuer: string, currency: string)
    | IssuedCurrencyAmount(value: string, issuer: string, currency: string)

  /**
   * The only failure: shortening a missing issuer raises inside `try`, and
   * the `finally` clause then reads the unbound `issuer_str`, so the error
   * that leaves the function is an UnboundLocalError.
   */
  datatype FormatError = UnboundLocalError

  function DictGet(d: map<string, string>, key: string): Option<string> {
    if key in d then Some(d[key]) else None
  }

  function ValueOf(c: Amount): Option<string> {
    match c
    case AmountDict(d) => DictGet(d, "value")
    case IssuedCurrency(_, _) => None
    case IssuedCurrencyAmount(v, _, _) => Some(v)
  }

  function IssuerOf(c: Amount): Option<string> {
    if c.AmountDict? then DictGet(c.fields, "issuer") else Some(c.issuer)
  }

  function CodeOf(c: Amount): Option<string> {
    if c.AmountDict? then DictGet(c.fields, "currency") else Some(c.currency)
  }

  /** `f"{x}"` of an optional string: a missing one prints as "None". */
  function Shown(x: Option<string>): string {
    if x.Some? then x.value else "None"
  }

  /** The non-XRP branch of `format_currency`, with the module's `short_address`. */
  function Format(c: Amount, short: bool, shorten: string -> string): (r: Result<string, FormatError>)
    ensures r.Err? <==> short && IssuerOf(c).None?
  {
    var issuer := IssuerOf(c);
    if short && issuer.None? then Err(UnboundLocalError)
    else
      var issuerStr := if short then shorten(issuer.value) else Shown(issuer);
      var text := Shown(CodeOf(c)) + "." + issuerStr;
      Ok(if ValueOf(c).Some? then ValueOf(c).value + " " + text else text)
  }

  /** `issue_currencies`: one IssuedCurrency per code, all of the given issuer. */
  function IssueCurrencies(issuer: string, codes: seq<string>): (r: seq<Amount>)
    ensures |r| == |codes|
    ensures forall i :: 0 <= i < |r| ==> r[i] == IssuedCurrency(issuer, codes[i])
  {
    seq(|codes|, i requires 0 <= i < |codes| => IssuedCurrency(issuer, codes[i]))
  }

  // ---------------------------------------------------------------------------
  // Properties

  /**
   * The layout: "<currency>.<issuer>", preceded by "<value> " exactly when
   * there is a value; the issuer part is shortened when asked and is the
   * issuer as it is otherwise; shortening fails only without an issuer.
   */
  lemma FormatLayout(c: Amount, short: bool, shorten: string -> string)
    ensures Format(c, short, shorten).Err? <==> short && IssuerOf(c).None?
    ensures Format(c, short, shorten).Ok? ==>
      var issuerPart := if short then shorten(IssuerOf(c).value) else Shown(IssuerOf(c));
      var tail := Shown(CodeOf(c)) + "." + issuerPart;
      var r := Format(c, short, shorten).value;
      && |r| >= |tail| && r[|r| - |tail|..] == tail
      && (ValueOf(c).Some? ==> r == ValueOf(c).value + " " + tail)
      && (ValueOf(c).None? ==> r == tail)
  {
    var r := Format(c, short, shorten);
    if r.Ok? && ValueOf(c).Some? {
      var v := ValueOf(c).value;
      var issuerPart := if short then shorten(IssuerOf(c).value) else Shown(IssuerOf(c));
      var tail := Shown(CodeOf(c)) + "." + issuerPart;
      assert r.value == (v + " ") + tail;
    }
  }

  /** An issued currency formats as "<code>.<issuer>" with no value in front. */
  lemma IssuedFormats(issuer: string, codes: seq<string>, i: nat, short: bool, shorten: string -> string)
    requires i < |codes|
    ensures Format(IssueCurrencies(issuer, codes)[i], short, shorten)
      == Ok(codes[i] + "." + (if short then shorten(issuer) else issuer))
  {
  }
}
