/** The terms of the token operations (src/state.rs:1931-2132) in plain conditions: when each succeeds, and
    everything it changes in both ledgers. */
module TokenTerms {
  import opened Anrc20
  import opened Ledger
  import opened Sums
  import Dex
  import Text

  /** `acct` with more or fewer units of one token. */
  function WithUnits(acct: Account, symbol: string, units: int): Account
    requires 0 <= Dex.Asset(acct, symbol) + units <= 0xFFFF_FFFF_FFFF_FFFF
  {
    acct.(assets := acct.assets[symbol := Dex.Asset(acct, symbol) + units])
  }

  /** Main result: a token is created if and only if its symbol is proper and new, its name has 1 to 64 characters
      and more than white space, it has at most 18 decimals and the owner's account has room for the
      supply. The owner then holds the whole supply in both ledgers. */
  lemma CreateTerms(m: Market, owner: Address, symbol: string, name: string, decimals: nat, supply: u64, mintable: bool)
    ensures
      var r := CreateToken(m, owner, symbol, name, decimals, supply, mintable);
      var acct := if owner in m.dex.accounts then m.dex.accounts[owner] else Account(0, 0, 0, 0, map[]);
      && (r.Success? <==>
            && Dex.ValidSymbol(symbol) && symbol !in m.registry
            && Text.Trim(name) != "" && |name| <= 64 && decimals <= 18
            && (supply > 0 ==> Dex.Asset(acct, symbol) + supply <= 0xFFFF_FFFF_FFFF_FFFF))
      && (r.Success? ==>
            && r.value.registry == m.registry[symbol := Token(Text.Trim(name), decimals, supply, owner, mintable,
                 if supply > 0 then map[owner := supply] else map[])]
            && r.value.dex == m.dex.(accounts := m.dex.accounts[owner :=
                 if supply > 0 then WithUnits(acct, symbol, supply) else acct]))
  {
  }

  /** Main result: in every consistent registry a mint succeeds if and only if the amount is positive, the caller owns
      the mintable token, and its supply and the recipient's account have room. The registry's own
      balance never overflows first. Both ledgers and the supply grow by the amount. */
  lemma MintTerms(m: Market, caller: Address, to: Address, symbol: string, amount: u64)
    requires RegistryOk(m)
    ensures
      var r := Mint(m, caller, to, symbol, amount);
      var acct := if to in m.dex.accounts then m.dex.accounts[to] else Account(0, 0, 0, 0, map[]);
      && (r.Success? <==>
            && amount > 0 && Dex.ValidSymbol(symbol) && symbol in m.registry
            && m.registry[symbol].mintable && m.registry[symbol].owner == caller
            && m.registry[symbol].supply + amount <= 0xFFFF_FFFF_FFFF_FFFF
            && Dex.Asset(acct, symbol) + amount <= 0xFFFF_FFFF_FFFF_FFFF)
      && (r.Success? ==>
            var t := m.registry[symbol];
            var listed := if to in t.balances then t.balances[to] else 0;
            && r.value.registry == m.registry[symbol := Token(t.name, t.decimals, t.supply + amount, t.owner,
                 t.mintable, t.balances[to := listed + amount])]
            && r.value.dex == m.dex.(accounts := m.dex.accounts[to := WithUnits(acct, symbol, amount)]))
  {
    if symbol in m.registry {
      SumAtLeast(m.registry[symbol].balances, to);
    }
  }

  /** Main result: a transfer that succeeds moves the amount from sender to recipient in both ledgers and changes
      nothing else; `Anrc20.TransferSucceedsIff` says when it does. */
  lemma TransferTerms(m: Market, from: Address, to: Address, symbol: string, amount: u64)
    requires Transfer(m, from, to, symbol, amount).Success?
    ensures amount > 0 && from != to && from in m.dex.accounts && symbol in m.registry
    ensures
      var n, t := Transfer(m, from, to, symbol, amount).value, m.registry[symbol];
      var acct := if to in m.dex.accounts then m.dex.accounts[to] else Account(0, 0, 0, 0, map[]);
      var sender, listed := if from in t.balances then t.balances[from] else 0,
          if to in t.balances then t.balances[to] else 0;
      && n.dex == m.dex.(accounts := m.dex.accounts[from := WithUnits(m.dex.accounts[from], symbol, 0 - amount)]
           [to := WithUnits(acct, symbol, amount)])
      && n.registry == m.registry[symbol := Token(t.name, t.decimals, t.supply, t.owner, t.mintable,
           t.balances[from := sender - amount][to := listed + amount])]
  {
  }
}
