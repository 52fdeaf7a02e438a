/**
 * Transaction dictionaries for the workload (workload/txn_factory.py): the
 * in-place deep update, the per-type builders, and `generate_txn`'s dispatch.
 * Random choices arrive as parameters.
 */
module TxnFactory {
  import opened Wrappers
  import opened Values

  type Dict = map<string, Value>

  /**
   * `deep_update(base, override)`: each key of `override` either merged into
   * `base`'s dict (when both are dicts, by the recursive call) or assigned.
   * The updated `base` is returned.
   */
  method DeepUpdate(base: Dict, override: Dict) returns (r: Dict)
    ensures VDict(r) == Merge(VDict(base), VDict(override))
    decreases VDict(override)
  {
    r := base;
    var rest := override.Keys;
    while rest != {}
      invariant rest <= override.Keys
      invariant forall k :: k in r <==> k in base || (k in override && k !in rest)
      invariant forall k :: k in r && k in override && k !in rest ==>
        r[k] == if k in base then Merge(base[k], override[k]) else override[k]
      invariant forall k :: k in r && (k !in override || k in rest) ==> r[k] == base[k]
      decreases rest
    {
      var k :| k in rest;
      var v := override[k];
      if v.VDict? && k in r && r[k].VDict? {
        assert VDict(v.d) == v;
        var sub := DeepUpdate(r[k].d, v.d);
        r := r[k := VDict(sub)];
      } else {
        r := r[k := v];
      }
      rest := rest - {k};
    }
    assert r == Merge(VDict(base), VDict(override)).d;
  }

  /** After the update, each non-dict override value is what the key holds. */
  lemma OverrideLeafWins(base: Dict, override: Dict, k: string)
    requires k in override && !override[k].VDict?
    ensures var r := Merge(VDict(base), VDict(override)).d; k in r && r[k] == override[k]
  {
  }

  /** Keys the override does not mention keep their previous values. */
  lemma UnmentionedKept(base: Dict, override: Dict, k: string)
    requires k in base && k !in override
    ensures var r := Merge(VDict(base), VDict(override)).d; k in r && r[k] == base[k]
  {
  }

  /** A dict override on top of a dict merges key by key; on top of anything else it replaces. */
  lemma NestedMerge(base: Dict, override: Dict, k: string)
    requires k in override && override[k].VDict?
    ensures var r := Merge(VDict(base), VDict(override)).d;
      && (k in base && base[k].VDict? ==> r[k].VDict? && r[k].d.Keys == base[k].d.Keys + override[k].d.Keys)
      && (k !in base || !base[k].VDict? ==> r[k] == override[k])
  {
  }

  /** Updating twice with the same override is the same as updating once. */
  lemma UpdateIdempotent(base: Dict, override: Dict)
    ensures Merge(Merge(VDict(base), VDict(override)), VDict(override)) == Merge(VDict(base), VDict(override))
  {
    MergeIdempotent(VDict(base), VDict(override));
  }

  // ---------------------------------------------------------------------------
  // Builders

  /** `TxnContext`: the account, the fee (default "10") and the candidate destination addresses. */
  datatype TxnContext = TxnContext(account: string, fee: string, addresses: Option<seq<string>>)

  /** `TxnContext(account)` with every default. */
  function NewContext(account: string): (c: TxnContext)
    ensures c.account == account && c.fee == "10" && c.addresses.None?
  {
    TxnContext(account, "10", None)
  }

  /** The class attribute `limit_amount_value`. */
  const LimitAmountValue: string := "10000000000000"

  /** The errors raised: no address list (TypeError), an empty one (IndexError), an unknown type (ValueError). */
  datatype TxnError = NoAddresses | EmptyAddresses | Unsupported(txnType: string)

  /** The random choices a builder makes: two address picks and an `AccountSetAsfFlag` value. */
  datatype Rolls = Rolls(first: nat, second: nat, flag: int)

  /** `ctx.get_address()`: a member of the address list, chosen by `pick`. */
  function GetAddress(ctx: TxnContext, pick: nat): (r: Result<string, TxnError>)
    ensures ctx.addresses.None? ==> r == Err(NoAddresses)
    ensures ctx.addresses.Some? && |ctx.addresses.value| == 0 ==> r == Err(EmptyAddresses)
    ensures r.Ok? ==> ctx.addresses.Some? && r.value in ctx.addresses.value
  {
    match ctx.addresses
    case None => Err(NoAddresses)
    case Some(a) => if |a| == 0 then Err(EmptyAddresses) else Ok(a[pick % |a|])
  }

  /** `NFTokenMintFlag.TF_TRANSFERABLE`. */
  const TfTransferable: int := 8

  /** The memo of every minted token. */
  const MemoText: string := "Some really cool info no doubt"

  function HexDigit(d: nat): char
    requires d < 16
  {
    if d < 10 then (('0' as int) + d) as char else (('a' as int) + d - 10) as char
  }

  /**
   * `s.encode("utf-8").hex()` for a string of ASCII characters: each
   * character becomes its two lower-case hex digits, high digit first.
   */
  function AsciiHex(s: string): (r: string)
    requires forall i :: 0 <= i < |s| ==> (s[i] as int) < 128
    ensures |r| == 2 * |s|
  {
    seq(2 * |s|, j requires 0 <= j < 2 * |s| =>
      if j % 2 == 0 then HexDigit((s[j / 2] as int) / 16) else HexDigit((s[j / 2] as int) % 16))
  }

  /** `build_payment`: to a destination drawn from the addresses (the first draw is unused). */
  function BuildPayment(ctx: TxnContext, rolls: Rolls): (r: Result<Dict, TxnError>)
    ensures r.Err? <==> ctx.addresses.None? || |ctx.addresses.value| == 0
    ensures r.Ok? ==> r.value.Keys == {"TransactionType", "Account", "Fee", "Destination"}
    ensures r.Ok? ==> r.value["TransactionType"] == VStr("Payment") && r.value["Account"] == VStr(ctx.account)
    ensures r.Ok? ==> r.value["Destination"].VStr? && r.value["Destination"].s in ctx.addresses.value
  {
    match GetAddress(ctx, rolls.first)
    case Err(e) => Err(e)
    case Ok(_) =>
      match GetAddress(ctx, rolls.second)
      case Err(e) => Err(e)
      case Ok(dest) =>
        Ok(map["TransactionType" := VStr("Payment"), "Account" := VStr(ctx.account),
               "Fee" := VStr(ctx.fee), "Destination" := VStr(dest)])
  }

  /** `build_trustset`: needs no address. */
  function BuildTrustSet(ctx: TxnContext): (d: Dict)
    ensures d.Keys == {"TransactionType", "Account", "Fee"}
    ensures d["Account"] == VStr(ctx.account) && d["Fee"] == VStr(ctx.fee)
  {
    map["TransactionType" := VStr("TrustSet"), "Account" := VStr(ctx.account), "Fee" := VStr(ctx.fee)]
  }

  /** `build_accountset`: an address is drawn and unused; no `TransactionType` key. */
  function BuildAccountSet(ctx: TxnContext, rolls: Rolls): (r: Result<Dict, TxnError>)
    ensures r.Err? <==> ctx.addresses.None? || |ctx.addresses.value| == 0
    ensures r.Ok? ==> r.value.Keys == {"Account", "Fee", "SetFlag"} && r.value["SetFlag"] == VInt(rolls.flag)
    ensures r.Ok? ==> r.value["Account"] == VStr(ctx.account) && r.value["Fee"] == VStr(ctx.fee)
  {
    match GetAddress(ctx, rolls.first)
    case Err(e) => Err(e)
    case Ok(_) => Ok(map["Account" := VStr(ctx.account), "Fee" := VStr(ctx.fee), "SetFlag" := VInt(rolls.flag)])
  }

  /** `build_nftoken_mint`: an address is drawn and unused; taxon 0, transferable, one memo; no fee. */
  function BuildNFTokenMint(ctx: TxnContext, rolls: Rolls): (r: Result<Dict, TxnError>)
    ensures r.Err? <==> ctx.addresses.None? || |ctx.addresses.value| == 0
    ensures r.Ok? ==> r.value.Keys == {"Account", "NFTokenTaxon", "flags", "memos"}
    ensures r.Ok? ==> r.value["Account"] == VStr(ctx.account)
    ensures r.Ok? ==> r.value["NFTokenTaxon"] == VInt(0) && r.value["flags"] == VInt(TfTransferable)
  {
    match GetAddress(ctx, rolls.first)
    case Err(e) => Err(e)
    case Ok(_) =>
      Ok(map["Account" := VStr(ctx.account), "NFTokenTaxon" := VInt(0), "flags" := VInt(TfTransferable),
             "memos" := VList([VDict(map["memo_data" := VStr(AsciiHex(MemoText))])])])
  }

  /** `_BUILDERS[txn_type](ctx)`, or the ValueError for a type without a builder. */
  function Build(txnType: string, ctx: TxnContext, rolls: Rolls): (r: Result<Dict, TxnError>)
    ensures r == Err(Unsupported(txnType)) <==> !Supported(txnType)
    ensures r.Ok? ==> "Account" in r.value && r.value["Account"] == VStr(ctx.account)
  {
    if txnType == "Payment" then BuildPayment(ctx, rolls)
    else if txnType == "TrustSet" then Ok(BuildTrustSet(ctx))
    else if txnType == "AccountSet" then BuildAccountSet(ctx, rolls)
    else if txnType == "NFTokenMint" then BuildNFTokenMint(ctx, rolls)
    else Err(Unsupported(txnType))
  }

  /**
   * `generate_txn`: the builder's dictionary deep-updated with the overrides and
   * handed to the model class's `from_xrpl` (a parameter here). A conversion
   * that raises is printed and answered with `None`.
   */
  method GenerateTxn<T>(txnType: string, ctx: TxnContext, rolls: Rolls, overrides: Dict,
                        fromXrpl: Dict -> Result<T, string>) returns (r: Result<Option<T>, TxnError>)
    ensures Build(txnType, ctx, rolls).Err? ==> r == Err(Build(txnType, ctx, rolls).error)
    ensures Build(txnType, ctx, rolls).Ok? ==> r.Ok?
    ensures Build(txnType, ctx, rolls).Ok? ==>
      var updated := Merge(VDict(Build(txnType, ctx, rolls).value), VDict(overrides)).d;
      && (fromXrpl(updated).Ok? ==> r == Ok(Some(fromXrpl(updated).value)))
      && (fromXrpl(updated).Err? ==> r == Ok(None))
  {
    var base := Build(txnType, ctx, rolls);
    if base.Err? {
      return Err(base.error);
    }
    var updated := DeepUpdate(base.value, overrides);
    var converted := fromXrpl(updated);
    if converted.Err? {
      return Ok(None);
    }
    r := Ok(Some(converted.value));
  }

  // ---------------------------------------------------------------------------
  // Properties of the builders

  predicate Supported(txnType: string) {
    txnType in {"Payment", "TrustSet", "AccountSet", "NFTokenMint"}
  }

  /** Exactly the four known types have builders; any other type raises ValueError. */
  lemma UnsupportedIffUnknown(txnType: string, ctx: TxnContext, rolls: Rolls)
    ensures Build(txnType, ctx, rolls) == Err(Unsupported(txnType)) <==> !Supported(txnType)
    ensures Supported(txnType) ==> forall t :: Build(txnType, ctx, rolls) != Err(Unsupported(t))
  {
  }

  /** A TrustSet never needs an address and has exactly its type, the account and the fee. */
  lemma TrustSetExact(ctx: TxnContext, rolls: Rolls)
    ensures Build("TrustSet", ctx, rolls).Ok?
    ensures var t := Build("TrustSet", ctx, rolls).value;
      && t.Keys == {"TransactionType", "Account", "Fee"}
      && t["TransactionType"] == VStr("TrustSet") && t["Account"] == VStr(ctx.account) && t["Fee"] == VStr(ctx.fee)
  {
  }

  /** With a default context a TrustSet pays the fee "10". */
  lemma DefaultFee(account: string, rolls: Rolls)
    ensures Build("TrustSet", NewContext(account), rolls).value["Fee"] == VStr("10")
  {
  }

  /** A Payment goes to one of the context's addresses; the other builders that pick one also fail without them. */
  lemma PaymentDestination(ctx: TxnContext, rolls: Rolls)
    ensures Build("Payment", ctx, rolls).Ok? ==>
      ctx.addresses.Some? && Build("Payment", ctx, rolls).value["Destination"].VStr? &&
      Build("Payment", ctx, rolls).value["Destination"].s in ctx.addresses.value
    ensures ctx.addresses.None? ==> forall t :: t in {"Payment", "AccountSet", "NFTokenMint"} ==>
      Build(t, ctx, rolls) == Err(NoAddresses)
  {
  }

  /** An override leaf replaces what the builder put at that key. */
  lemma GeneratedOverrideWins(txnType: string, ctx: TxnContext, rolls: Rolls, overrides: Dict, k: string)
    requires Build(txnType, ctx, rolls).Ok?
    requires k in overrides && !overrides[k].VDict?
    ensures var r := Merge(VDict(Build(txnType, ctx, rolls).value), VDict(overrides)).d; k in r && r[k] == overrides[k]
  {
    OverrideLeafWins(Build(txnType, ctx, rolls).value, overrides, k);
  }
}
