/**
 * The trust-line bucketing of the workload's balance lookup: each account
 * line of an account goes either to the "issued" bucket (negative balance:
 * the account issued tokens to the counterparty) or to the "held" bucket (the
 * account holds tokens of the counterparty). The lines are an input; balances
 * are integers.
 */
module Balances {
  import opened Seqs

  /** One account line: the counterparty, the currency code and the balance. */
  datatype Line = Line(account: string, currency: string, balance: int)

  /** An issued-currency amount. */
  datatype Token = Token(issuer: string, value: int, currency: string)

  datatype Side = Issued | Held

  /** One bucket: its keys in insertion order and the token list of each key. */
  datatype Bucket = Bucket(keys: seq<string>, tokens: map<string, seq<Token>>)

  const Empty := Bucket([], map[])

  /** Every key listed once, the listed keys are the map's keys, and no list is empty. */
  ghost predicate Valid(b: Bucket) {
    && NoDuplicates(b.keys)
    && (forall k :: k in b.tokens <==> k in b.keys)
    && (forall k :: k in b.tokens ==> |b.tokens[k]| > 0)
  }

  /** The bucket a line goes to. */
  function SideOf(l: Line): Side {
    if l.balance < 0 then Issued else Held
  }

  /**
   * The token a line of `owner` gives: issued by `owner`, worth the negated
   * balance, when the balance is negative; otherwise issued by the
   * counterparty, worth the balance.
   */
  function TokenOf(owner: string, l: Line): Token {
    if l.balance < 0 then Token(owner, -l.balance, l.currency) else Token(l.account, l.balance, l.currency)
  }

  /**
   * Appending `t` under `key`: to the existing list when `.get(key)` is
   * truthy, otherwise as a new one-element list.
   */
  function Add(b: Bucket, key: string, t: Token): Bucket {
    if key in b.tokens && |b.tokens[key]| > 0 then Bucket(b.keys, b.tokens[key := b.tokens[key] + [t]])
    else Bucket(if key in b.tokens then b.keys else b.keys + [key], b.tokens[key := [t]])
  }

  /** The bucket `side` after the loop has seen `lines`. */
  function Fill(owner: string, lines: seq<Line>, side: Side): (r: Bucket)
    ensures Valid(r)
  {
    if |lines| == 0 then Empty
    else
      var b := Fill(owner, lines[..|lines| - 1], side);
      var l := lines[|lines| - 1];
      if SideOf(l) == side then
        AddOne(b, l.account, TokenOf(owner, l));
        Add(b, l.account, TokenOf(owner, l))
      else b
  }

  /** `get_account_tokens`: the loop over the account lines, filling both buckets. */
  method GetAccountTokens(owner: string, lines: seq<Line>) returns (issued: Bucket, held: Bucket)
    ensures issued == Fill(owner, lines, Issued)
    ensures held == Fill(owner, lines, Held)
  {
    issued, held := Empty, Empty;
    for i := 0 to |lines|
      invariant issued == Fill(owner, lines[..i], Issued)
      invariant held == Fill(owner, lines[..i], Held)
    {
      var l := lines[i];
      FillStep(owner, lines, i, Issued);
      FillStep(owner, lines, i, Held);
      if l.balance < 0 {
        var t := Token(owner, -l.balance, l.currency);
        if l.account in issued.tokens && |issued.tokens[l.account]| > 0 {
          issued := issued.(tokens := issued.tokens[l.account := issued.tokens[l.account] + [t]]);
        } else {
          var keys := if l.account in issued.tokens then issued.keys else issued.keys + [l.account];
          issued := Bucket(keys, issued.tokens[l.account := [t]]);
        }
      } else {
        var t := Token(l.account, l.balance, l.currency);
        if l.account in held.tokens && |held.tokens[l.account]| > 0 {
          held := held.(tokens := held.tokens[l.account := held.tokens[l.account] + [t]]);
        } else {
          var keys := if l.account in held.tokens then held.keys else held.keys + [l.account];
          held := Bucket(keys, held.tokens[l.account := [t]]);
        }
      }
    }
    assert lines[..|lines|] == lines;
  }

  /** One more line adds its token to its own side's bucket and leaves the other alone. */
  lemma FillStep(owner: string, lines: seq<Line>, i: nat, side: Side)
    requires i < |lines|
    ensures Fill(owner, lines[..i + 1], side) ==
      if SideOf(lines[i]) == side then Add(Fill(owner, lines[..i], side), lines[i].account, TokenOf(owner, lines[i]))
      else Fill(owner, lines[..i], side)
  {
    assert lines[..i + 1][..i] == lines[..i];
  }

  // ---------------------------------------------------------------------------
  // Reference definitions

  /** The counterparties of the lines going to `side`, in line order, repeats kept. */
  function Counterparties(lines: seq<Line>, side: Side): seq<string> {
    if |lines| == 0 then []
    else
      var l := lines[|lines| - 1];
      Counterparties(lines[..|lines| - 1], side) + (if SideOf(l) == side then [l.account] else [])
  }

  /** The tokens of the lines going to `side` with counterparty `k`, in line order. */
  function Entries(owner: string, lines: seq<Line>, side: Side, k: string): seq<Token> {
    if |lines| == 0 then []
    else
      var l := lines[|lines| - 1];
      Entries(owner, lines[..|lines| - 1], side, k) + (if SideOf(l) == side && l.account == k then [TokenOf(owner, l)] else [])
  }

  /** Number of lines going to `side`. */
  function SideCount(lines: seq<Line>, side: Side): nat {
    if |lines| == 0 then 0
    else SideCount(lines[..|lines| - 1], side) + (if SideOf(lines[|lines| - 1]) == side then 1 else 0)
  }

  /** The number of tokens listed under `keys`. */
  function Total(keys: seq<string>, m: map<string, seq<Token>>): nat {
    if |keys| == 0 then 0
    else
      var k := keys[|keys| - 1];
      Total(keys[..|keys| - 1], m) + (if k in m then |m[k]| else 0)
  }

  // ---------------------------------------------------------------------------
  // Properties

  /** A key outside `keys` does not change their total. */
  lemma {:induction false} TotalOther(keys: seq<string>, m: map<string, seq<Token>>, k: string, v: seq<Token>)
    requires k !in keys
    ensures Total(keys, m[k := v]) == Total(keys, m)
  {
    if |keys| > 0 {
      TotalOther(keys[..|keys| - 1], m, k, v);
    }
  }

  /** Lengthening the list of a key listed once adds the difference to the total. */
  lemma {:induction false} TotalGrow(keys: seq<string>, m: map<string, seq<Token>>, k: string, v: seq<Token>)
    requires NoDuplicates(keys) && k in keys && k in m && |v| >= |m[k]|
    ensures Total(keys, m[k := v]) == Total(keys, m) + |v| - |m[k]|
  {
    var n := |keys| - 1;
    var init := keys[..n];
    if keys[n] == k {
      assert k !in init;
      TotalOther(init, m, k, v);
    } else {
      assert k in init;
      TotalGrow(init, m, k, v);
    }
  }

  /** Appending under a listed key keeps the bucket valid and adds one to its total. */
  lemma AddExisting(b: Bucket, key: string, t: Token)
    requires Valid(b) && key in b.tokens
    ensures Valid(Add(b, key, t))
    ensures Total(Add(b, key, t).keys, Add(b, key, t).tokens) == Total(b.keys, b.tokens) + 1
  {
    var v := b.tokens[key] + [t];
    assert Add(b, key, t) == Bucket(b.keys, b.tokens[key := v]);
    TotalGrow(b.keys, b.tokens, key, v);
  }

  /** A new key goes at the end of the keys with a one-token list. */
  lemma AddNewValid(b: Bucket, key: string, t: Token)
    requires Valid(b) && key !in b.tokens
    ensures Valid(Add(b, key, t))
  {
    var keys := b.keys + [key];
    assert Add(b, key, t) == Bucket(keys, b.tokens[key := [t]]);
    assert key !in b.keys;
    forall i, j | 0 <= i < j < |keys| ensures keys[i] != keys[j] {
      if j < |b.keys| {
        assert keys[i] == b.keys[i] && keys[j] == b.keys[j];
      } else {
        assert keys[i] in b.keys;
      }
    }
  }

  lemma AddNewTotal(b: Bucket, key: string, t: Token)
    requires Valid(b) && key !in b.tokens
    ensures Total(Add(b, key, t).keys, Add(b, key, t).tokens) == Total(b.keys, b.tokens) + 1
  {
    var keys := b.keys + [key];
    var m := b.tokens[key := [t]];
    assert Add(b, key, t) == Bucket(keys, m);
    assert keys[..|keys| - 1] == b.keys;
    TotalOther(b.keys, b.tokens, key, [t]);
  }

  /** Adding a token keeps a bucket valid and adds one to its total. */
  lemma AddOne(b: Bucket, key: string, t: Token)
    requires Valid(b)
    ensures Valid(Add(b, key, t))
    ensures Total(Add(b, key, t).keys, Add(b, key, t).tokens) == Total(b.keys, b.tokens) + 1
  {
    if key in b.tokens {
      AddExisting(b, key, t);
    } else {
      AddNewValid(b, key, t);
      AddNewTotal(b, key, t);
    }
  }

  /** Each bucket is valid and holds one token per line that goes to it. */
  lemma {:induction false} FillValid(owner: string, lines: seq<Line>, side: Side)
    ensures var b := Fill(owner, lines, side);
      Valid(b) && Total(b.keys, b.tokens) == SideCount(lines, side)
  {
    if |lines| > 0 {
      var init := lines[..|lines| - 1];
      var l := lines[|lines| - 1];
      FillValid(owner, init, side);
      if SideOf(l) == side {
        AddOne(Fill(owner, init, side), l.account, TokenOf(owner, l));
      }
    }
  }

  /** A bucket's keys are the counterparties of its lines, in order of first appearance. */
  lemma {:induction false} FillKeys(owner: string, lines: seq<Line>, side: Side)
    ensures Fill(owner, lines, side).keys == Distinct(Counterparties(lines, side))
  {
    if |lines| > 0 {
      var init := lines[..|lines| - 1];
      var l := lines[|lines| - 1];
      FillKeys(owner, init, side);
      FillValid(owner, init, side);
      var c := Counterparties(init, side);
      DistinctSameElements(c);
      if SideOf(l) == side {
        var c' := Counterparties(lines, side);
        assert c' == c + [l.account];
        assert c'[..|c'| - 1] == c;
      } else {
        assert Counterparties(lines, side) == c;
      }
    }
  }

  /**
   * The list under each key holds exactly the tokens of that counterparty's
   * lines, in line order, and a counterparty without lines has no key.
   */
  lemma {:induction false} FillEntries(owner: string, lines: seq<Line>, side: Side, k: string)
    ensures var b := Fill(owner, lines, side);
      && (k in b.tokens ==> b.tokens[k] == Entries(owner, lines, side, k))
      && (k !in b.tokens ==> Entries(owner, lines, side, k) == [])
  {
    if |lines| > 0 {
      var init := lines[..|lines| - 1];
      FillEntries(owner, init, side, k);
    }
  }

  /** Every line lands in exactly one bucket: the two totals add up to the number of lines. */
  lemma {:induction false} EveryLineOnce(owner: string, lines: seq<Line>)
    ensures var issued := Fill(owner, lines, Issued);
      var held := Fill(owner, lines, Held);
      Total(issued.keys, issued.tokens) + Total(held.keys, held.tokens) == |lines|
  {
    FillValid(owner, lines, Issued);
    FillValid(owner, lines, Held);
    SideCountsAddUp(lines);
  }

  lemma {:induction false} SideCountsAddUp(lines: seq<Line>)
    ensures SideCount(lines, Issued) + SideCount(lines, Held) == |lines|
  {
    if |lines| > 0 {
      SideCountsAddUp(lines[..|lines| - 1]);
    }
  }

  /**
   * What the entries say: an issued entry under key `k` comes from a negative
   * line with counterparty `k`, is issued by `owner` and is worth the negated
   * balance; a held entry under `k` comes from a non-negative line with
   * counterparty `k`, is issued by `k` and is worth the balance; the currency
   * is the line's.
   */
  lemma {:induction false} EntriesFromLines(owner: string, lines: seq<Line>, side: Side, k: string, j: nat)
    requires j < |Entries(owner, lines, side, k)|
    ensures exists i :: (0 <= i < |lines| && lines[i].account == k && SideOf(lines[i]) == side
                         && Entries(owner, lines, side, k)[j] == TokenOf(owner, lines[i]))
    ensures var t := Entries(owner, lines, side, k)[j];
      && (side == Issued ==> t.issuer == owner && t.value > 0)
      && (side == Held ==> t.issuer == k && t.value >= 0)
  {
    var init := lines[..|lines| - 1];
    var e0 := Entries(owner, init, side, k);
    if j < |e0| {
      EntriesFromLines(owner, init, side, k, j);
      var i :| 0 <= i < |init| && init[i].account == k && SideOf(init[i]) == side && e0[j] == TokenOf(owner, init[i]);
      assert lines[i] == init[i];
    } else {
      assert lines[|lines| - 1].account == k && SideOf(lines[|lines| - 1]) == side;
    }
  }
}
