/**
 * The workload's account records. Python's dataclass inheritance
 * (`Gateway` and `UserAccount` extend `Account`) has no counterpart here, so
 * each class repeats the `wallet` and `address` fields. The `__str__` they
 * inherit is `ShortAddress` of that address for all three; it is written
 * once, as `Account.ToString`.
 */
module Models {
  import opened Text
  import Currency
  import Balances

  /** `short_address`: the first 6 characters, "..", the last 5. */
  function ShortAddress(address: string): (r: string)
    ensures |address| >= 6 ==> |r| == 13
    ensures |address| >= 6 ==> r[..6] == address[..6] && r[6..8] == ".." && r[8..] == address[|address| - 5..]
    ensures |address| < 6 ==> r == address + ".." + address
  {
    Take(address, 6) + ".." + TakeLast(address, 5)
  }

  /** The part of an xrpl-py wallet the records use. */
  datatype Wallet = Wallet(address: string)

  class Account {
    var wallet: Wallet
    var address: string

    /** `__post_init__` copies the wallet's address. */
    constructor (wallet: Wallet)
      ensures this.wallet == wallet && address == wallet.address
    {
      this.wallet := wallet;
      address := wallet.address;
    }

    /** `__str__`. */
    function ToString(): (r: string)
      reads this
      ensures r == ShortAddress(address)
    {
      ShortAddress(address)
    }
  }

  class Gateway {
    var wallet: Wallet
    var address: string
    /** Currency code to the currency the gateway issues. */
    var issuedCurrencies: map<string, Currency.Amount>

    /** Every gateway starts with its own empty `issued_currencies`. */
    constructor (wallet: Wallet)
      ensures this.wallet == wallet && address == wallet.address
      ensures issuedCurrencies == map[]
    {
      this.wallet := wallet;
      address := wallet.address;
      issuedCurrencies := map[];
    }
  }

  class UserAccount {
    var wallet: Wallet
    var address: string
    /** `balances`: a plain dict, keyed by counterparty here. */
    var balances: map<string, seq<Balances.Token>>
    var tickets: set<int>
    var nfts: set<string>

    /** Every user account starts with its own empty balances, tickets and NFTs. */
    constructor (wallet: Wallet)
      ensures this.wallet == wallet && address == wallet.address
      ensures balances == map[] && tickets == {} && nfts == {}
    {
      this.wallet := wallet;
      address := wallet.address;
      balances := map[];
      tickets := {};
      nfts := {};
    }

    /** The `tickets` property getter: the backing set itself. */
    function Tickets(): (r: set<int>)
      reads this
      ensures r == tickets
    {
      tickets
    }

    /** The `tickets` setter replaces the set and nothing else. */
    method SetTickets(value: set<int>)
      modifies this
      ensures tickets == value
      ensures wallet == old(wallet) && address == old(address) && balances == old(balances) && nfts == old(nfts)
    {
      tickets := value;
    }

    /** The `nfts` property getter: the backing set itself. */
    function Nfts(): (r: set<string>)
      reads this
      ensures r == nfts
    {
      nfts
    }

    /** The `nfts` setter replaces the set and nothing else. */
    method SetNfts(value: set<string>)
      modifies this
      ensures nfts == value
      ensures wallet == old(wallet) && address == old(address) && balances == old(balances) && tickets == old(tickets)
    {
      nfts := value;
    }
  }

  /** An NFT and the account that owns it. */
  datatype Nft = Nft(owner: UserAccount, nftokenId: string)

  /** An AMM: its account, its two assets and its LP token. */
  datatype Amm = Amm(account: string, assets: seq<Currency.Amount>, lpToken: seq<Currency.Amount>)

  /** Setting one of the two sets leaves the other as it was; a set read back is the set written. */
  method SettersIndependent(u: UserAccount, t: set<int>, n: set<string>) returns (tickets: set<int>, nfts: set<string>)
    modifies u
    ensures tickets == t && nfts == n
    ensures u.address == old(u.address) && u.balances == old(u.balances)
  {
    u.SetTickets(t);
    u.SetNfts(n);
    tickets := u.Tickets();
    nfts := u.Nfts();
  }

  /**
   * Collections are per instance: filling one account's tickets leaves a
   * second account built from the same wallet with its empty defaults.
   */
  method SeparateInstances(w: Wallet, t: set<int>) returns (a: UserAccount, b: UserAccount)
    ensures fresh(a) && fresh(b) && a != b
    ensures a.tickets == t
    ensures b.tickets == {} && b.nfts == {} && b.balances == map[]
  {
    a := new UserAccount(w);
    b := new UserAccount(w);
    a.SetTickets(t);
  }
}
