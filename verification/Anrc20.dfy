/** ANRC20 tokens (src/state.rs:1934-2132). A token lives in two ledgers: the registry's own
    balances, and the asset balances of accounts, which the DEX trades. */
module Anrc20 {
  import opened Wrappers
  import opened Ledger
  import opened Sums
  import Dex
  import DexMath
  import Text

  datatype Token = Token(name: string, decimals: nat, supply: u64, owner: Address, mintable: bool,
    balances: map<Address, u64>)

  datatype Market = Market(dex: Dex.Dex, registry: map<string, Token>)

  datatype TokenError =
    | BadSymbol
    | TokenExists
    | BadName
    | BadDecimals
    | ZeroAmount
    | TokenNotFound
    | NotMintable
    | NotOwner
    | SameParties
    | SenderNotFound
    | InsufficientToken
    | SupplyOverflow
    | AssetFailed(cause: Dex.DexError)

  function Registered(t: Token, a: Address): u64 {
    if a in t.balances then t.balances[a] else 0
  }

  /** `credit_asset` on an account that is created when missing. */
  function GiveUnits(accounts: Accounts, a: Address, symbol: string, x: u64): Result<Accounts, TokenError> {
    var acct := Dex.CreditAsset(Get(accounts, a), symbol, x);
    if acct.Failure? then Failure(AssetFailed(acct.error)) else Success(accounts[a := acct.value])
  }

  function CreateToken(m: Market, owner: Address, symbol: string, name: string, decimals: nat, supply: u64,
                       mintable: bool): Result<Market, TokenError> {
    if !Dex.ValidSymbol(symbol) then Failure(BadSymbol)
    else if symbol in m.registry then Failure(TokenExists)
    else if Text.Trim(name) == "" || |name| > 64 then Failure(BadName)
    else if decimals > 18 then Failure(BadDecimals)
    else
      var accounts :- if supply > 0 then GiveUnits(m.dex.accounts, owner, symbol, supply)
                      else Success(m.dex.accounts[owner := Get(m.dex.accounts, owner)]);
      var balances := if supply > 0 then map[owner := supply] else map[];
      Success(Market(m.dex.(accounts := accounts),
                     m.registry[symbol := Token(Text.Trim(name), decimals, supply, owner, mintable, balances)]))
  }

  function Mint(m: Market, caller: Address, to: Address, symbol: string, amount: u64): Result<Market, TokenError> {
    if amount == 0 then Failure(ZeroAmount)
    else if !Dex.ValidSymbol(symbol) then Failure(BadSymbol)
    else if symbol !in m.registry then Failure(TokenNotFound)
    else
      var t := m.registry[symbol];
      if !t.mintable then Failure(NotMintable)
      else if t.owner != caller then Failure(NotOwner)
      else if t.supply + amount > U64_MAX || Registered(t, to) + amount > U64_MAX then Failure(SupplyOverflow)
      else
        var accounts :- GiveUnits(m.dex.accounts, to, symbol, amount);
        Success(Market(m.dex.(accounts := accounts),
                       m.registry[symbol := t.(supply := t.supply + amount,
                         balances := t.balances[to := Registered(t, to) + amount])]))
  }

  /** The account side of a transfer, which the code performs first. */
  function MoveUnits(accounts: Accounts, from: Address, to: Address, symbol: string,
                     amount: u64): Result<Accounts, TokenError> {
    if from !in accounts then Failure(SenderNotFound)
    else
      var paid := Dex.DebitAsset(accounts[from], symbol, amount);
      if paid.Failure? then Failure(AssetFailed(paid.error))
      else GiveUnits(accounts[from := paid.value], to, symbol, amount)
  }

  /** The registry side. */
  function MoveRegistered(t: Token, from: Address, to: Address, amount: u64): Result<Token, TokenError> {
    if Registered(t, from) < amount then Failure(InsufficientToken)
    else
      var paid := t.(balances := t.balances[from := Registered(t, from) - amount]);
      if Registered(paid, to) + amount > U64_MAX then Failure(SupplyOverflow)
      else Success(paid.(balances := paid.balances[to := Registered(paid, to) + amount]))
  }

  function Transfer(m: Market, from: Address, to: Address, symbol: string, amount: u64): Result<Market, TokenError> {
    if amount == 0 then Failure(ZeroAmount)
    else if !Dex.ValidSymbol(symbol) then Failure(BadSymbol)
    else if from == to then Failure(SameParties)
    else
      var accounts :- MoveUnits(m.dex.accounts, from, to, symbol, amount);
      if symbol !in m.registry then Failure(TokenNotFound)
      else
        var t :- MoveRegistered(m.registry[symbol], from, to, amount);
        Success(Market(m.dex.(accounts := accounts), m.registry[symbol := t]))
  }

  datatype Step =
    | CreateStep(owner: Address, symbol: string, name: string, decimals: nat, supply: u64, mintable: bool)
    | MintStep(caller: Address, to: Address, symbol: string, amount: u64)
    | TransferStep(from: Address, to: Address, symbol: string, amount: u64)
    | Trade(op: Dex.Op)

  ghost function Do(m: Market, step: Step): Option<Market> {
    match step
    case CreateStep(o, s, name, d, supply, mintable) =>
      var r := CreateToken(m, o, s, name, d, supply, mintable); if r.Success? then Some(r.value) else None
    case MintStep(c, to, s, x) => var r := Mint(m, c, to, s, x); if r.Success? then Some(r.value) else None
    case TransferStep(f, to, s, x) => var r := Transfer(m, f, to, s, x); if r.Success? then Some(r.value) else None
    case Trade(op) => var r := Dex.Do(m.dex, op); if r.Success? then Some(m.(dex := r.value)) else None
  }

  ghost function DoAll(m: Market, steps: seq<Step>): Option<Market>
    decreases steps
  {
    if steps == [] then Some(m)
    else
      var next := Do(m, steps[0]);
      if next.None? then None else DoAll(next.value, steps[1..])
  }

  // --- what every run keeps ------------------------------------------------------

  ghost predicate RegistryOk(m: Market) {
    forall s :: s in m.registry ==> Sum(m.registry[s].balances) == m.registry[s].supply
  }

  function SupplyOf(m: Market, s: string): nat {
    if s in m.registry then m.registry[s].supply else 0
  }

  /** Units in accounts and in the pool, beyond what the registry has issued. */
  ghost function Excess(m: Market, s: string): int {
    Dex.TokenTotal(m.dex, s) - SupplyOf(m, s)
  }

  /** For every token but wrapped ANET. */
  ghost predicate SameExcess(m: Market, n: Market) {
    forall s :: s != Dex.WANET ==> Excess(m, s) == Excess(n, s)
  }

  lemma GiveUnitsTotal(d: Dex.Dex, a: Address, symbol: string, x: u64, s: string)
    requires GiveUnits(d.accounts, a, symbol, x).Success?
    ensures Dex.TokenTotal(d.(accounts := GiveUnits(d.accounts, a, symbol, x).value), s) ==
            Dex.TokenTotal(d, s) + if s == symbol then x else 0
  {
    Dex.AccountChange(d, a, GiveUnits(d.accounts, a, symbol, x).value[a]);
  }

  lemma MoveUnitsTotal(d: Dex.Dex, from: Address, to: Address, symbol: string, x: u64, s: string)
    requires MoveUnits(d.accounts, from, to, symbol, x).Success?
    ensures Dex.TokenTotal(d.(accounts := MoveUnits(d.accounts, from, to, symbol, x).value), s) == Dex.TokenTotal(d, s)
  {
    var paid := Dex.DebitAsset(d.accounts[from], symbol, x).value;
    Dex.AccountChange(d, from, paid);
    GiveUnitsTotal(d.(accounts := d.accounts[from := paid]), to, symbol, x, s);
  }

  lemma OneHolderSum(owner: Address, supply: u64)
    ensures Sum<Address>(map[owner := supply]) == supply
  {
    var none: map<Address, int> := map[];
    SumUpdate(none, owner, supply);
    assert none[owner := supply as int] == map[owner := supply as int];
  }

  lemma CreatedRegistry(m: Market, owner: Address, symbol: string, name: string, decimals: nat, supply: u64,
                        mintable: bool)
    requires RegistryOk(m) && CreateToken(m, owner, symbol, name, decimals, supply, mintable).Success?
    ensures RegistryOk(CreateToken(m, owner, symbol, name, decimals, supply, mintable).value)
  {
    OneHolderSum(owner, supply);
  }

  lemma CreateKeeps(m: Market, owner: Address, symbol: string, name: string, decimals: nat, supply: u64, mintable: bool)
    requires RegistryOk(m) && CreateToken(m, owner, symbol, name, decimals, supply, mintable).Success?
    ensures var n := CreateToken(m, owner, symbol, name, decimals, supply, mintable).value;
      RegistryOk(n) && SameExcess(m, n) && n.dex.pools == m.dex.pools
  {
    CreatedRegistry(m, owner, symbol, name, decimals, supply, mintable);
    var n := CreateToken(m, owner, symbol, name, decimals, supply, mintable).value;
    forall s ensures Excess(n, s) == Excess(m, s) {
      if supply > 0 {
        GiveUnitsTotal(m.dex, owner, symbol, supply, s);
      } else {
        Dex.AccountChange(m.dex, owner, Get(m.dex.accounts, owner));
      }
    }
  }

  lemma MintKeeps(m: Market, caller: Address, to: Address, symbol: string, amount: u64)
    requires RegistryOk(m) && Mint(m, caller, to, symbol, amount).Success?
    ensures var n := Mint(m, caller, to, symbol, amount).value;
      RegistryOk(n) && SameExcess(m, n) && n.dex.pools == m.dex.pools
  {
    var t := m.registry[symbol];
    SumUpdate(t.balances, to, Registered(t, to) + amount);
    forall s ensures Excess(Mint(m, caller, to, symbol, amount).value, s) == Excess(m, s) {
      GiveUnitsTotal(m.dex, to, symbol, amount, s);
    }
  }

  lemma MoveRegisteredKeepsSum(t: Token, from: Address, to: Address, amount: u64)
    requires MoveRegistered(t, from, to, amount).Success?
    ensures var u := MoveRegistered(t, from, to, amount).value;
      Sum(u.balances) == Sum(t.balances) && u.supply == t.supply
  {
    SumUpdate(t.balances, from, Registered(t, from) - amount);
    var paid := t.balances[from := Registered(t, from) - amount];
    SumUpdate(paid, to, (if to in paid then paid[to] else 0) + amount);
  }

  lemma TransferKeeps(m: Market, from: Address, to: Address, symbol: string, amount: u64)
    requires RegistryOk(m) && Transfer(m, from, to, symbol, amount).Success?
    ensures var n := Transfer(m, from, to, symbol, amount).value;
      RegistryOk(n) && SameExcess(m, n) && n.dex.pools == m.dex.pools
  {
    MoveRegisteredKeepsSum(m.registry[symbol], from, to, amount);
    forall s ensures Excess(Transfer(m, from, to, symbol, amount).value, s) == Excess(m, s) {
      MoveUnitsTotal(m.dex, from, to, symbol, amount, s);
    }
  }

  lemma StepKeeps(m: Market, step: Step)
    requires RegistryOk(m) && Dex.DexOk(m.dex) && Do(m, step).Some?
    ensures RegistryOk(Do(m, step).value) && Dex.DexOk(Do(m, step).value.dex) && SameExcess(m, Do(m, step).value)
  {
    match step
    case CreateStep(o, s, name, d, supply, mintable) => CreateKeeps(m, o, s, name, d, supply, mintable);
    case MintStep(c, to, s, x) => MintKeeps(m, c, to, s, x);
    case TransferStep(f, to, s, x) => TransferKeeps(m, f, to, s, x);
    case Trade(op) => Dex.OpKeeps(m.dex, op);
  }

  /** Main result: over any run of Ok token and DEX operations, each token's registered
      balances add up to its supply, and what accounts and the pool hold of it exceeds that
      supply by exactly what it did at the start. That is for every symbol but WANET, whose
      units trades make and redeem: `WanetIssue.TokenRunsMakeAnet` has that one. */
  lemma {:induction false} TokensMatchSupply(m: Market, steps: seq<Step>)
    requires RegistryOk(m) && Dex.DexOk(m.dex) && DoAll(m, steps).Some?
    ensures RegistryOk(DoAll(m, steps).value) && SameExcess(m, DoAll(m, steps).value)
    decreases steps
  {
    if steps != [] {
      StepKeeps(m, steps[0]);
      TokensMatchSupply(Do(m, steps[0]).value, steps[1..]);
    }
  }

  // --- the two ledgers, holder by holder --------------------------------------------

  /** What one holder has in the registry, in any state. */
  function Listed(m: Market, s: string, a: Address): u64 {
    if s in m.registry then Registered(m.registry[s], a) else 0
  }

  ghost predicate Mirrored(m: Market, s: string) {
    forall a :: Dex.Asset(Get(m.dex.accounts, a), s) == Listed(m, s, a)
  }

  lemma {:induction false} TwoWithinSum(b: map<Address, int>, x: Address, y: Address)
    requires x != y && forall a :: a in b ==> b[a] >= 0
    ensures (if x in b then b[x] else 0) + (if y in b then b[y] else 0) <= Sum(b)
  {
    SumAtLeast(b, y);
    if x in b {
      SumRemove(b, x);
      SumAtLeast(b - {x}, y);
    }
  }

  /** Whether a transfer gets as far as the accounts. */
  predicate TransferReaches(from: Address, to: Address, symbol: string, amount: u64) {
    amount > 0 && Dex.ValidSymbol(symbol) && from != to
  }

  /** Main result: in every reachable registry a transfer succeeds if and only if its arguments are
      proper, the token is known, the sender holds the amount in both ledgers and the recipient's
      account has room for it. The registry's overflow check never fires. */
  lemma TransferSucceedsIff(m: Market, from: Address, to: Address, symbol: string, amount: u64)
    requires RegistryOk(m)
    ensures Transfer(m, from, to, symbol, amount).Success? <==>
            && TransferReaches(from, to, symbol, amount) && symbol in m.registry
            && from in m.dex.accounts
            && Dex.Asset(m.dex.accounts[from], symbol) >= amount
            && Registered(m.registry[symbol], from) >= amount
            && Dex.Asset(Get(m.dex.accounts, to), symbol) + amount <= U64_MAX
  {
    if symbol in m.registry && from != to {
      TwoWithinSum(m.registry[symbol].balances, from, to);
    }
  }

  /** While the two ledgers agree, a transfer succeeds exactly when the sender holds the amount. */
  lemma MirroredTransfersSucceed(m: Market, from: Address, to: Address, symbol: string, amount: u64)
    requires RegistryOk(m) && Mirrored(m, symbol)
    requires amount > 0 && Dex.ValidSymbol(symbol) && from != to && symbol in m.registry
    ensures Transfer(m, from, to, symbol, amount).Success? <==>
            from in m.dex.accounts && Dex.Asset(m.dex.accounts[from], symbol) >= amount
  {
    var t := m.registry[symbol];
    assert Dex.Asset(Get(m.dex.accounts, from), symbol) == Registered(t, from);
    assert Dex.Asset(Get(m.dex.accounts, to), symbol) == Registered(t, to);
    TwoWithinSum(t.balances, from, to);
    TransferSucceedsIff(m, from, to, symbol, amount);
  }

  // --- what an Err leaves behind --------------------------------------------------------

  /** The accounts after the account side of a transfer, finished or not. */
  function UnitsKept(accounts: Accounts, from: Address, to: Address, symbol: string, amount: u64): Accounts {
    if from !in accounts || Dex.Asset(accounts[from], symbol) < amount then accounts
    else
      var paid := accounts[from := Dex.DebitAsset(accounts[from], symbol, amount).value];
      var given := GiveUnits(paid, to, symbol, amount);
      if given.Success? then given.value else paid
  }

  /** The registry entry after its side of a transfer, finished or not. */
  function RegisteredKept(t: Token, from: Address, to: Address, amount: u64): Token {
    if Registered(t, from) < amount then t
    else
      var moved := MoveRegistered(t, from, to, amount);
      if moved.Success? then moved.value else t.(balances := t.balances[from := Registered(t, from) - amount])
  }

  function TransferKept(m: Market, from: Address, to: Address, symbol: string, amount: u64): Market {
    if !TransferReaches(from, to, symbol, amount) then m
    else
      var accounts := m.dex.(accounts := UnitsKept(m.dex.accounts, from, to, symbol, amount));
      if MoveUnits(m.dex.accounts, from, to, symbol, amount).Failure? || symbol !in m.registry then m.(dex := accounts)
      else Market(accounts, m.registry[symbol := RegisteredKept(m.registry[symbol], from, to, amount)])
  }

  /** Whether a mint passes its checks and raises the supply. */
  predicate MintReaches(m: Market, caller: Address, symbol: string, amount: u64) {
    && amount > 0 && Dex.ValidSymbol(symbol) && symbol in m.registry
    && m.registry[symbol].mintable && m.registry[symbol].owner == caller
    && m.registry[symbol].supply + amount <= U64_MAX
  }

  function MintKept(m: Market, caller: Address, to: Address, symbol: string, amount: u64): Market {
    if !MintReaches(m, caller, symbol, amount) then m
    else
      var raised := m.registry[symbol].(supply := m.registry[symbol].supply + amount);
      var held := Registered(raised, to);
      if held + amount > U64_MAX then m.(registry := m.registry[symbol := raised])
      else
        var minted := m.(registry := m.registry[symbol := raised.(balances := raised.balances[to := held + amount])]);
        var given := GiveUnits(m.dex.accounts, to, symbol, amount);
        if given.Success? then minted.(dex := m.dex.(accounts := given.value)) else minted
  }

  lemma UnitsKeptChanges(accounts: Accounts, from: Address, to: Address, symbol: string, amount: u64)
    requires amount > 0 && from != to
    ensures UnitsKept(accounts, from, to, symbol, amount) == accounts <==>
            from !in accounts || Dex.Asset(accounts[from], symbol) < amount
  {
    if from in accounts && Dex.Asset(accounts[from], symbol) >= amount {
      var kept := UnitsKept(accounts, from, to, symbol, amount);
      assert Dex.Asset(kept[from], symbol) == Dex.Asset(accounts[from], symbol) - amount;
    }
  }

  /** Main result: an Err of a transfer leaves the state as it was if and only if the call never
      reaches the accounts, or the sender is missing or holds too few units. In particular the
      Errs that come from the registry leave the units moved. */
  lemma TransferErrIsClean(m: Market, from: Address, to: Address, symbol: string, amount: u64)
    requires Transfer(m, from, to, symbol, amount).Failure?
    ensures TransferKept(m, from, to, symbol, amount) == m <==>
            || !TransferReaches(from, to, symbol, amount)
            || from !in m.dex.accounts || Dex.Asset(m.dex.accounts[from], symbol) < amount
  {
    if TransferReaches(from, to, symbol, amount) {
      UnitsKeptChanges(m.dex.accounts, from, to, symbol, amount);
    }
  }

  /** Main result: an Err of a mint leaves the state as it was if and only if one of the checks up
      to the supply's refuses it. */
  lemma MintErrIsClean(m: Market, caller: Address, to: Address, symbol: string, amount: u64)
    requires Mint(m, caller, to, symbol, amount).Failure?
    ensures MintKept(m, caller, to, symbol, amount) == m <==> !MintReaches(m, caller, symbol, amount)
  {
    if MintReaches(m, caller, symbol, amount) {
      assert MintKept(m, caller, to, symbol, amount).registry[symbol].supply == m.registry[symbol].supply + amount;
    }
  }

  /** Err or Ok, these are the states after a call. */
  lemma KeptOnOk(m: Market, caller: Address, from: Address, to: Address, symbol: string, amount: u64)
    ensures Transfer(m, from, to, symbol, amount).Success? ==>
              TransferKept(m, from, to, symbol, amount) == Transfer(m, from, to, symbol, amount).value
    ensures Mint(m, caller, to, symbol, amount).Success? ==>
              MintKept(m, caller, to, symbol, amount) == Mint(m, caller, to, symbol, amount).value
  {
  }

  lemma RaisedRegistryOk(m: Market, symbol: string, to: Address, amount: u64)
    requires RegistryOk(m) && symbol in m.registry && m.registry[symbol].supply + amount <= U64_MAX
    ensures
      var t := m.registry[symbol];
      && Registered(t, to) + amount <= U64_MAX
      && RegistryOk(m.(registry := m.registry[symbol := t.(supply := t.supply + amount,
                                                          balances := t.balances[to := Registered(t, to) + amount])]))
  {
    var t := m.registry[symbol];
    SumAtLeast(t.balances, to);
    SumUpdate(t.balances, to, Registered(t, to) + amount);
  }

  lemma TransferKeepsRegistryOk(m: Market, from: Address, to: Address, symbol: string, amount: u64)
    requires RegistryOk(m)
    ensures RegistryOk(TransferKept(m, from, to, symbol, amount))
  {
    if TransferReaches(from, to, symbol, amount) && symbol in m.registry {
      var t := m.registry[symbol];
      TwoWithinSum(t.balances, from, to);
      if Registered(t, from) >= amount {
        MoveRegisteredKeepsSum(t, from, to, amount);
      }
    }
  }

  /** Whatever a transfer or a mint returns, registered balances still add up to the supply. */
  lemma ErrsKeepRegistryOk(m: Market, caller: Address, from: Address, to: Address, symbol: string, amount: u64)
    requires RegistryOk(m)
    ensures RegistryOk(TransferKept(m, from, to, symbol, amount))
    ensures RegistryOk(MintKept(m, caller, to, symbol, amount))
  {
    TransferKeepsRegistryOk(m, from, to, symbol, amount);
    if MintReaches(m, caller, symbol, amount) {
      RaisedRegistryOk(m, symbol, to, amount);
    }
  }

  predicate TokenStep(step: Step) {
    !step.Trade?
  }

  /** The state after a token call, whatever it returns. An Err of a creation changes nothing. */
  function StepKept(m: Market, step: Step): Market
    requires TokenStep(step)
  {
    match step
    case CreateStep(o, s, name, d, supply, mintable) =>
      var r := CreateToken(m, o, s, name, d, supply, mintable); if r.Success? then r.value else m
    case MintStep(c, to, s, x) => MintKept(m, c, to, s, x)
    case TransferStep(f, to, s, x) => TransferKept(m, f, to, s, x)
  }

  /** It changes nobody's ants and no pool. */
  lemma StepKeptMovesNoAnts(m: Market, step: Step, a: Address)
    requires TokenStep(step)
    ensures Balance(StepKept(m, step).dex.accounts, a) == Balance(m.dex.accounts, a)
    ensures StepKept(m, step).dex == m.dex.(accounts := StepKept(m, step).dex.accounts)
  {
  }

  /** An Err of a creation changes nothing, one of a transfer no supply, and one of a mint no account. */
  lemma StepKeptOnErr(m: Market, step: Step)
    requires TokenStep(step) && Do(m, step).None?
    ensures step.CreateStep? ==> StepKept(m, step) == m
    ensures step.MintStep? ==> StepKept(m, step).dex == m.dex
    ensures step.TransferStep? ==> forall s :: SupplyOf(StepKept(m, step), s) == SupplyOf(m, s)
  {
  }

  lemma StepKeptOnOk(m: Market, step: Step)
    requires TokenStep(step) && Do(m, step).Some?
    ensures StepKept(m, step) == Do(m, step).value
  {
    match step
    case CreateStep(_, _, _, _, _, _) =>
    case MintStep(c, to, s, x) => KeptOnOk(m, c, c, to, s, x);
    case TransferStep(f, to, s, x) => KeptOnOk(m, f, f, to, s, x);
  }

  lemma CreateMirrors(m: Market, o: Address, s: string, name: string, d: nat, x: u64, mintable: bool, q: string,
                      a: Address)
    requires CreateToken(m, o, s, name, d, x, mintable).Success?
    requires Dex.Asset(Get(m.dex.accounts, a), q) == Listed(m, q, a)
    ensures var n := CreateToken(m, o, s, name, d, x, mintable).value;
      Dex.Asset(Get(n.dex.accounts, a), q) == Listed(n, q, a)
  {
  }

  lemma MintMirrors(m: Market, c: Address, to: Address, s: string, x: u64, q: string, a: Address)
    requires Mint(m, c, to, s, x).Success?
    requires Dex.Asset(Get(m.dex.accounts, a), q) == Listed(m, q, a)
    ensures var n := Mint(m, c, to, s, x).value;
      Dex.Asset(Get(n.dex.accounts, a), q) == Listed(n, q, a)
  {
  }

  lemma TransferMirrors(m: Market, f: Address, to: Address, s: string, x: u64, q: string, a: Address)
    requires Transfer(m, f, to, s, x).Success?
    requires Dex.Asset(Get(m.dex.accounts, a), q) == Listed(m, q, a)
    ensures var n := Transfer(m, f, to, s, x).value;
      Dex.Asset(Get(n.dex.accounts, a), q) == Listed(n, q, a)
  {
  }

  lemma TokenStepMirrors(m: Market, step: Step, s: string)
    requires TokenStep(step) && Mirrored(m, s) && Do(m, step).Some?
    ensures Mirrored(Do(m, step).value, s)
  {
    var n := Do(m, step).value;
    forall a ensures Dex.Asset(Get(n.dex.accounts, a), s) == Listed(n, s, a) {
      assert Dex.Asset(Get(m.dex.accounts, a), s) == Listed(m, s, a);
      match step
      case CreateStep(o, t, name, d, supply, mintable) => CreateMirrors(m, o, t, name, d, supply, mintable, s, a);
      case MintStep(c, to, t, x) => MintMirrors(m, c, to, t, x, s, a);
      case TransferStep(f, to, t, x) => TransferMirrors(m, f, to, t, x, s, a);
    }
  }

  /** Token operations alone keep the two ledgers equal for every holder. */
  lemma {:induction false} TokenRunsMirror(m: Market, steps: seq<Step>, s: string)
    requires (forall i :: 0 <= i < |steps| ==> TokenStep(steps[i])) && Mirrored(m, s) && DoAll(m, steps).Some?
    ensures Mirrored(DoAll(m, steps).value, s)
    decreases steps
  {
    if steps != [] {
      TokenStepMirrors(m, steps[0], s);
      TokenRunsMirror(Do(m, steps[0]).value, steps[1..], s);
    }
  }

  /** A purchase on the DEX does not reach the registry: a buyer who owned at least what the registry
      lists now owns units that a token transfer refuses to move. */
  lemma BoughtUnitsDoNotTransfer(m: Market, buyer: Address, to: Address, symbol: string, amount: u64, minOut: u64,
                                 height: u64, deadline: Option<u64>)
    requires Dex.Asset(Get(m.dex.accounts, buyer), symbol) >= Listed(m, symbol, buyer)
    requires Dex.Swap(m.dex, buyer, symbol, amount, true, minOut, height, deadline).Success?
    ensures
      var n := m.(dex := Dex.Swap(m.dex, buyer, symbol, amount, true, minOut, height, deadline).value);
      var owned := Dex.Asset(Get(n.dex.accounts, buyer), symbol);
      && owned > Listed(n, symbol, buyer)
      && Transfer(n, buyer, to, symbol, owned).Failure?
  {
  }

  /** 1000 ants and enough sessions. */
  const BUYER := Account(1_000, 0, 0, MIN_SESSIONS_FOR_ANET, map[])

  function Start(owner: Address, buyer: Address): Market {
    Market(Dex.Dex(map[owner := BUYER, buyer := BUYER], map[], {}), map[])
  }

  function IssueT(owner: Address): Step {
    CreateStep(owner, "T", "T", 0, 1_000, false)
  }

  /** All of them and all the owner's ants open the pool, without a fee. */
  function OpenPoolT(owner: Address): Step {
    Trade(Dex.Create(owner, "T", 1_000, 1_000, Some(0)))
  }

  function BuyT(buyer: Address): Step {
    Trade(Dex.SwapIn(buyer, "T", 1_000, true, 0, 0, None))
  }

  ghost predicate HasBuyer(m: Market, buyer: Address) {
    && buyer in m.dex.accounts && m.dex.accounts[buyer] == BUYER
    && "T" in m.registry && Registered(m.registry["T"], buyer) == 0
  }

  lemma TokenIssued(owner: Address, buyer: Address) returns (n: Market)
    requires owner != buyer
    ensures Do(Start(owner, buyer), IssueT(owner)) == Some(n)
    ensures HasBuyer(n, buyer) && "T" !in n.dex.pools
    ensures owner in n.dex.accounts && n.dex.accounts[owner] == BUYER.(assets := map["T" := 1_000])
  {
    var m := Start(owner, buyer);
    NameIsProper();
    UnitsGiven(m.dex.accounts, owner);
    n := CreateToken(m, owner, "T", "T", 0, 1_000, false).value;
  }

  lemma NameIsProper()
    ensures Text.Trim("T") == "T" && Dex.ValidSymbol("T")
  {
    Text.TrimEndsTrimmed("T");
  }

  lemma UnitsGiven(accounts: Accounts, a: Address)
    requires a in accounts && accounts[a] == BUYER
    ensures GiveUnits(accounts, a, "T", 1_000) == Success(accounts[a := BUYER.(assets := map["T" := 1_000])])
  {
    assert Dex.CreditAsset(BUYER, "T", 1_000) == Success(BUYER.(assets := map["T" := 1_000]));
  }

  lemma PoolOpened(m: Market, owner: Address, buyer: Address) returns (n: Market)
    requires owner != buyer && HasBuyer(m, buyer) && "T" !in m.dex.pools
    requires owner in m.dex.accounts && m.dex.accounts[owner] == BUYER.(assets := map["T" := 1_000])
    ensures Do(m, OpenPoolT(owner)) == Some(n)
    ensures HasBuyer(n, buyer) && Dex.Asset(Get(n.dex.accounts, owner), "T") == 0
    ensures "T" in n.dex.pools && n.dex.pools["T"].anet == n.dex.pools["T"].token == 1_000 && n.dex.pools["T"].fee == 0
  {
    DexMath.InitialLpBounds(1_000, 1_000);
    assert Dex.Deposit(m.dex, owner, "T", 1_000, 1_000).Success?;
    n := Do(m, OpenPoolT(owner)).value;
  }

  lemma Bought(m: Market, owner: Address, buyer: Address) returns (n: Market)
    requires owner != buyer && HasBuyer(m, buyer)
    requires "T" in m.dex.pools && m.dex.pools["T"].anet == m.dex.pools["T"].token == 1_000 && m.dex.pools["T"].fee == 0
    ensures Do(m, BuyT(buyer)) == Some(n)
    ensures n.registry == m.registry && Dex.Asset(Get(n.dex.accounts, buyer), "T") == 500
    ensures Get(n.dex.accounts, owner) == Get(m.dex.accounts, owner)
  {
    var p := m.dex.pools["T"];
    assert DexMath.AfterFee(1_000, 0) == 1_000 && DexMath.Output(1_000, 1_000, 1_000) == 500;
    assert Dex.SwapQuote(p, 1_000, true) == Success(DexMath.Quote(500, 0));
    assert Dex.Exchange(BUYER, "T", 1_000, 500, true).Success?;
    assert Dex.PoolProblem(p, 1_000, 500, true, 0).None?;
    n := Do(m, BuyT(buyer)).value;
  }

  lemma ThreeSteps(m: Market, a: Step, b: Step, c: Step)
    requires Do(m, a).Some? && Do(Do(m, a).value, b).Some?
    ensures DoAll(m, [a, b, c]) == Do(Do(Do(m, a).value, b).value, c)
  {
    assert [a, b, c][1..] == [b, c] && [b, c][1..] == [c] && [c][1..] == [];
    assert DoAll(Do(Do(m, a).value, b).value, [c]) == Do(Do(Do(m, a).value, b).value, c);
  }

  lemma RefusedByRegistry(m: Market, from: Address, to: Address)
    requires from != to && "T" in m.registry && Registered(m.registry["T"], from) == 0
    requires Dex.Asset(Get(m.dex.accounts, from), "T") == 500 && Dex.Asset(Get(m.dex.accounts, to), "T") == 0
    ensures Transfer(m, from, to, "T", 500) == Failure(InsufficientToken)
  {
  }

  /** Such markets are reached from an empty registry: a token is issued, its owner opens a pool with
      it, somebody buys 500 units, and the transfer of those units is refused. */
  lemma BuyerMeetsRefusal(owner: Address, buyer: Address)
    requires owner != buyer
    ensures
      var end := DoAll(Start(owner, buyer), [IssueT(owner), OpenPoolT(owner), BuyT(buyer)]);
      && end.Some? && Dex.Asset(Get(end.value.dex.accounts, buyer), "T") == 500
      && Transfer(end.value, buyer, owner, "T", 500) == Failure(InsufficientToken)
  {
    var m := TokenIssued(owner, buyer);
    var n := PoolOpened(m, owner, buyer);
    var end := Bought(n, owner, buyer);
    ThreeSteps(Start(owner, buyer), IssueT(owner), OpenPoolT(owner), BuyT(buyer));
    RefusedByRegistry(end, buyer, owner);
  }
}
