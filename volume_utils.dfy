/**
 * The `utils` module of the workload image built from the volume
 * configuration: an address shortener that keeps both ends, the currency text
 * built with it, and the issued currencies of a gateway.
 */
module VolumeUtils {
  import opened Wrappers
  import opened Text
  import Currency

  /** `short_address`: the first 5 characters, "...", the last 5. */
  function ShortAddress(address: string): (r: string)
    ensures |address| >= 5 ==> |r| == 13
    ensures |address| >= 5 ==> r == address[..5] + "..." + address[|address| - 5..]
    ensures |address| < 5 ==> r == address + "..." + address
  {
    Take(address, 5) + "..." + TakeLast(address, 5)
  }

  /** `format_currency`, dict / IssuedCurrency / IssuedCurrencyAmount branch. */
  function FormatCurrency(c: Currency.Amount, short: bool): (r: Result<string, Currency.FormatError>)
    ensures r.Err? <==> short && Currency.IssuerOf(c).None?
  {
    Currency.Format(c, short, ShortAddress)
  }

  /**
   * "<currency>.<issuer>", preceded by "<value> " exactly when there is a
   * value; with `short` the issuer part is the 13-character shortened issuer
   * (for an issuer of at least 5 characters), and a missing issuer then fails.
   */
  lemma FormatCurrencyLayout(c: Currency.Amount, short: bool)
    ensures FormatCurrency(c, short).Err? <==> short && Currency.IssuerOf(c).None?
    ensures FormatCurrency(c, short).Ok? ==>
      var issuerPart := if short then ShortAddress(Currency.IssuerOf(c).value) else Currency.Shown(Currency.IssuerOf(c));
      var tail := Currency.Shown(Currency.CodeOf(c)) + "." + issuerPart;
      var r := FormatCurrency(c, short).value;
      && |r| >= |tail| && r[|r| - |tail|..] == tail
      && (Currency.ValueOf(c).Some? ==> r == Currency.ValueOf(c).value + " " + tail)
      && (Currency.ValueOf(c).None? ==> r == tail)
  {
    Currency.FormatLayout(c, short, ShortAddress);
  }

  /** `issue_currencies` keeps the codes' order and count, all under the one issuer. */
  lemma IssueCurrenciesKeepsCodes(issuer: string, codes: seq<string>)
    ensures var r := Currency.IssueCurrencies(issuer, codes);
      && |r| == |codes|
      && (forall i :: 0 <= i < |r| ==> r[i].IssuedCurrency? && r[i].issuer == issuer && r[i].currency == codes[i])
      && forall i :: 0 <= i < |r| ==> FormatCurrency(r[i], false) == Ok(codes[i] + "." + issuer)
  {
    var r := Currency.IssueCurrencies(issuer, codes);
    forall i | 0 <= i < |r| ensures FormatCurrency(r[i], false) == Ok(codes[i] + "." + issuer) {
      Currency.IssuedFormats(issuer, codes, i, false, ShortAddress);
    }
  }
}
