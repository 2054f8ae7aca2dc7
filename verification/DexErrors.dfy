/** What a native DEX operation that returns Err leaves behind (src/state.rs:1396-1832). The
    code does not roll back: an account debited before a later check fails stays debited. */
module DexErrors {
  import opened Wrappers
  import opened Ledger
  import opened Dex

  /** `accounts` with one entry replaced by the outcome of the last step that worked. */
  function Kept(d: Dex, a: Address, first: Result<Account, DexError>, both: Result<Account, DexError>): Accounts {
    if both.Success? then d.accounts[a := both.value]
    else if first.Success? then d.accounts[a := first.value]
    else d.accounts
  }

  function AnetDebit(d: Dex, a: Address, x: u64): Result<Account, DexError> {
    var acct :- EligibleAccount(d, a);
    DebitAnet(acct, x)
  }

  function AssetDebit(d: Dex, a: Address, symbol: string, x: u64): Result<Account, DexError> {
    var acct :- EligibleAccount(d, a);
    DebitAsset(acct, symbol, x)
  }

  function DepositKept(d: Dex, a: Address, symbol: string, anet: u64, token: u64): Accounts {
    Kept(d, a, AnetDebit(d, a, anet), Deposit(d, a, symbol, anet, token))
  }

  function SwapDebit(d: Dex, a: Address, symbol: string, amount: u64, anetToToken: bool): Result<Account, DexError> {
    if anetToToken then AnetDebit(d, a, amount) else AssetDebit(d, a, symbol, amount)
  }

  function SwapExchange(d: Dex, a: Address, symbol: string, amount: u64, out: nat,
                        anetToToken: bool): Result<Account, DexError> {
    var acct :- EligibleAccount(d, a);
    Exchange(acct, symbol, amount, out, anetToToken)
  }

  /** Whether an operation gets as far as touching the account. */
  predicate Reaches(d: Dex, op: Op) {
    match op
    case Create(_, s, x, t, _) => ValidSymbol(s) && s !in d.pools && x > 0 && t > 0
    case Add(_, s, x, t) => ValidSymbol(s) && x > 0 && t > 0 && s in d.pools && MintedLp(d.pools[s], x, t).Success?
    case SwapIn(_, s, x, dir, _, h, deadline) =>
      && (deadline.None? || h <= deadline.value)
      && ValidSymbol(s) && x > 0 && s in d.pools && SwapQuote(d.pools[s], x, dir).Success?
    case WrapAnet(_, x) => x > 0
    case UnwrapWanet(_, x) => x > 0
  }

  /** The accounts after an Err. */
  function Residue(d: Dex, op: Op): Accounts {
    if !Reaches(d, op) then d.accounts
    else
      match op
      case Create(a, s, x, t, _) => DepositKept(d, a, s, x, t)
      case Add(a, s, x, t) => DepositKept(d, a, s, x, t)
      case SwapIn(a, s, x, dir, _, _, _) =>
        var out := SwapQuote(d.pools[s], x, dir).value.amountOut;
        Kept(d, a, SwapDebit(d, a, s, x, dir), SwapExchange(d, a, s, x, out, dir))
      case WrapAnet(a, x) =>
        var paid := AnetDebit(d, a, x);
        Kept(d, a, paid, if paid.Failure? then paid else CreditAsset(paid.value, WANET, x))
      case UnwrapWanet(a, x) =>
        var paid := AssetDebit(d, a, WANET, x);
        Kept(d, a, paid, if paid.Failure? then paid else CreditAnet(paid.value, x))
  }

  /** The wallet that acts, and whether it can pay the first debit: what a caller can look up
      before the call. */
  predicate CanPay(d: Dex, a: Address, symbol: Option<string>, x: u64) {
    EligibleAccount(d, a).Success? && if symbol.None? then d.accounts[a].ants >= x
      else Asset(d.accounts[a], symbol.value) >= x
  }

  predicate FirstDebitPaid(d: Dex, op: Op) {
    match op
    case Create(a, s, x, t, _) => CanPay(d, a, None, x)
    case Add(a, s, x, t) => CanPay(d, a, None, x)
    case SwapIn(a, s, x, dir, _, _, _) => CanPay(d, a, if dir then None else Some(s), x)
    case WrapAnet(a, x) => CanPay(d, a, None, x)
    case UnwrapWanet(a, x) => CanPay(d, a, Some(WANET), x)
  }

  lemma AnetDebitShows(d: Dex, a: Address, x: u64)
    requires x > 0
    ensures AnetDebit(d, a, x).Success? <==> CanPay(d, a, None, x)
    ensures AnetDebit(d, a, x).Success? ==> AnetDebit(d, a, x).value.ants < d.accounts[a].ants
  {
  }

  lemma AssetDebitShows(d: Dex, a: Address, s: string, x: u64)
    requires x > 0
    ensures AssetDebit(d, a, s, x).Success? <==> CanPay(d, a, Some(s), x)
    ensures AssetDebit(d, a, s, x).Success? ==> Asset(AssetDebit(d, a, s, x).value, s) < Asset(d.accounts[a], s)
  {
  }

  lemma KeptChanges(d: Dex, a: Address, first: Result<Account, DexError>, both: Result<Account, DexError>)
    requires a in d.accounts
    requires first.Success? ==> first.value != d.accounts[a]
    requires both.Success? ==> first.Success? && both.value != d.accounts[a]
    ensures Kept(d, a, first, both) == d.accounts <==> first.Failure?
  {
    if first.Success? {
      assert Kept(d, a, first, both)[a] != d.accounts[a];
    }
  }

  lemma DepositLeavesUnlessUnpaid(d: Dex, a: Address, s: string, x: u64, t: u64)
    requires x > 0
    ensures DepositKept(d, a, s, x, t) == d.accounts <==> !CanPay(d, a, None, x)
  {
    AnetDebitShows(d, a, x);
    if EligibleAccount(d, a).Success? {
      KeptChanges(d, a, AnetDebit(d, a, x), Deposit(d, a, s, x, t));
    }
  }

  lemma SwapLeavesUnlessUnpaid(d: Dex, a: Address, s: string, x: u64, out: nat, dir: bool)
    requires x > 0
    ensures Kept(d, a, SwapDebit(d, a, s, x, dir), SwapExchange(d, a, s, x, out, dir)) == d.accounts
            <==> !CanPay(d, a, if dir then None else Some(s), x)
  {
    AnetDebitShows(d, a, x);
    AssetDebitShows(d, a, s, x);
    if EligibleAccount(d, a).Success? {
      KeptChanges(d, a, SwapDebit(d, a, s, x, dir), SwapExchange(d, a, s, x, out, dir));
    }
  }

  lemma WrapLeavesUnlessUnpaid(d: Dex, a: Address, x: u64)
    requires x > 0
    ensures Residue(d, WrapAnet(a, x)) == d.accounts <==> !CanPay(d, a, None, x)
  {
    AnetDebitShows(d, a, x);
    var paid := AnetDebit(d, a, x);
    if EligibleAccount(d, a).Success? {
      KeptChanges(d, a, paid, if paid.Failure? then paid else CreditAsset(paid.value, WANET, x));
    }
  }

  lemma UnwrapLeavesUnlessUnpaid(d: Dex, a: Address, x: u64)
    requires x > 0
    ensures Residue(d, UnwrapWanet(a, x)) == d.accounts <==> !CanPay(d, a, Some(WANET), x)
  {
    AssetDebitShows(d, a, WANET, x);
    var paid := AssetDebit(d, a, WANET, x);
    if EligibleAccount(d, a).Success? {
      KeptChanges(d, a, paid, if paid.Failure? then paid else CreditAnet(paid.value, x));
    }
  }

  /** Main result: an Err leaves every account as it was if and only if the call is refused
      before its first debit: it never gets to the account, or the wallet is missing, not
      eligible or short of what is debited first. */
  lemma ErrIsCleanUnlessFirstDebitPaid(d: Dex, op: Op)
    requires Do(d, op).Failure?
    ensures Residue(d, op) == d.accounts <==> !(Reaches(d, op) && FirstDebitPaid(d, op))
  {
    if Reaches(d, op) {
      match op
      case Create(a, s, x, t, _) => DepositLeavesUnlessUnpaid(d, a, s, x, t);
      case Add(a, s, x, t) => DepositLeavesUnlessUnpaid(d, a, s, x, t);
      case SwapIn(a, s, x, dir, _, _, _) => SwapLeavesUnlessUnpaid(d, a, s, x,
          SwapQuote(d.pools[s], x, dir).value.amountOut, dir);
      case WrapAnet(a, x) => WrapLeavesUnlessUnpaid(d, a, x);
      case UnwrapWanet(a, x) => UnwrapLeavesUnlessUnpaid(d, a, x);
    }
  }
}
