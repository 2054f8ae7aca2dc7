/** Wrapped ANET is an asset named "WANET". Symbols reserve "ANET" alone (src/dex.rs:86-106), so
    a token of that name can be created as well (src/state.rs:1931-1998), and the DEX redeems its
    units one for one (src/state.rs:1476-1491). */
module WanetIssue {
  import opened Wrappers
  import opened Anrc20
  import opened Ledger
  import Dex
  import Solvency
  import Text

  /** The WANET units one Ok token operation issues. */
  function IssuedBy(step: Step): nat {
    match step
    case CreateStep(_, s, _, _, supply, _) => if s == Dex.WANET then supply else 0
    case MintStep(_, _, s, x) => if s == Dex.WANET then x else 0
    case _ => 0
  }

  function Issued(steps: seq<Step>): nat {
    if steps == [] then 0 else IssuedBy(steps[0]) + Issued(steps[1..])
  }

  /** What one Ok trade wraps, less what it unwraps. */
  function WrappedBy(step: Step): int {
    if step.Trade? && step.op.WrapAnet? then step.op.amount
    else if step.Trade? && step.op.UnwrapWanet? then 0 - step.op.amount
    else 0
  }

  function Wrapped(steps: seq<Step>): int {
    if steps == [] then 0 else WrappedBy(steps[0]) + Wrapped(steps[1..])
  }

  lemma GivenSupply(accounts: Accounts, a: Address, symbol: string, x: u64)
    requires GiveUnits(accounts, a, symbol, x).Success?
    ensures Solvency.Supply(GiveUnits(accounts, a, symbol, x).value) == Solvency.Supply(accounts)
  {
    Solvency.SupplyUpdate(accounts, a, GiveUnits(accounts, a, symbol, x).value[a]);
  }

  lemma MovedSupply(accounts: Accounts, from: Address, to: Address, symbol: string, x: u64)
    requires MoveUnits(accounts, from, to, symbol, x).Success?
    ensures Solvency.Supply(MoveUnits(accounts, from, to, symbol, x).value) == Solvency.Supply(accounts)
  {
    var paid := Dex.DebitAsset(accounts[from], symbol, x).value;
    Solvency.SupplyUpdate(accounts, from, paid);
    GivenSupply(accounts[from := paid], to, symbol, x);
  }

  /** A token operation leaves the ants and the pools alone. */
  lemma TokenStepKeepsAnts(m: Market, step: Step)
    requires TokenStep(step) && Do(m, step).Some?
    ensures
      var n := Do(m, step).value;
      n.dex.pools == m.dex.pools && Solvency.Supply(n.dex.accounts) == Solvency.Supply(m.dex.accounts)
  {
    match step
    case CreateStep(o, s, _, _, supply, _) =>
      if supply > 0 {
        GivenSupply(m.dex.accounts, o, s, supply);
      } else {
        Solvency.SupplyUpdate(m.dex.accounts, o, Get(m.dex.accounts, o));
      }
    case MintStep(_, to, s, x) => GivenSupply(m.dex.accounts, to, s, x);
    case TransferStep(f, to, s, x) => MovedSupply(m.dex.accounts, f, to, s, x);
  }

  lemma TokenStepRegisters(m: Market, step: Step)
    requires TokenStep(step) && Do(m, step).Some?
    ensures SupplyOf(Do(m, step).value, Dex.WANET) == SupplyOf(m, Dex.WANET) + IssuedBy(step)
  {
  }

  lemma CreationIssues(m: Market, o: Address, s: string, name: string, d: nat, supply: u64, mintable: bool)
    requires CreateToken(m, o, s, name, d, supply, mintable).Success?
    ensures Dex.TokenTotal(CreateToken(m, o, s, name, d, supply, mintable).value.dex, Dex.WANET) ==
            Dex.TokenTotal(m.dex, Dex.WANET) + if s == Dex.WANET then supply else 0
  {
    if supply > 0 {
      GiveUnitsTotal(m.dex, o, s, supply, Dex.WANET);
    } else {
      Dex.AccountChange(m.dex, o, Get(m.dex.accounts, o));
    }
  }

  lemma TokenStepIssues(m: Market, step: Step)
    requires TokenStep(step) && Do(m, step).Some?
    ensures
      Dex.TokenTotal(Do(m, step).value.dex, Dex.WANET) == Dex.TokenTotal(m.dex, Dex.WANET) + IssuedBy(step)
  {
    match step
    case CreateStep(o, s, name, d, supply, mintable) => CreationIssues(m, o, s, name, d, supply, mintable);
    case MintStep(_, to, s, x) => GiveUnitsTotal(m.dex, to, s, x, Dex.WANET);
    case TransferStep(f, to, s, x) => MoveUnitsTotal(m.dex, f, to, s, x, Dex.WANET);
  }

  lemma WrapCounts(d: Dex.Dex, a: Address, x: u64)
    requires Dex.Wrap(d, a, x).Success?
    ensures var e := Dex.Wrap(d, a, x).value;
      Dex.AnetTotal(e) == Dex.AnetTotal(d) && Dex.TokenTotal(e, Dex.WANET) == Dex.TokenTotal(d, Dex.WANET) + x
  {
    Dex.AccountChange(d, a, Dex.Wrap(d, a, x).value.accounts[a]);
  }

  lemma UnwrapCounts(d: Dex.Dex, a: Address, x: u64)
    requires Dex.Unwrap(d, a, x).Success?
    ensures var e := Dex.Unwrap(d, a, x).value;
      Dex.AnetTotal(e) == Dex.AnetTotal(d) && Dex.TokenTotal(e, Dex.WANET) == Dex.TokenTotal(d, Dex.WANET) - x
  {
    Dex.AccountChange(d, a, Dex.Unwrap(d, a, x).value.accounts[a]);
  }

  /** Only wrapping and unwrapping turn ants into units and back. */
  lemma TradeWraps(m: Market, op: Dex.Op)
    requires Dex.DexOk(m.dex) && Dex.Do(m.dex, op).Success?
    ensures Dex.AnetTotal(Dex.Do(m.dex, op).value) == Dex.AnetTotal(m.dex)
    ensures Dex.TokenTotal(Dex.Do(m.dex, op).value, Dex.WANET) ==
            Dex.TokenTotal(m.dex, Dex.WANET) + WrappedBy(Trade(op))
  {
    match op
    case Create(a, s, x, y, fee) => Dex.CreateKeeps(m.dex, a, s, x, y, fee);
    case Add(a, s, x, y) => Dex.AddKeeps(m.dex, a, s, x, y);
    case SwapIn(a, s, x, dir, minOut, h, deadline) => Dex.SwapKeeps(m.dex, a, s, x, dir, minOut, h, deadline);
    case WrapAnet(a, x) => WrapCounts(m.dex, a, x);
    case UnwrapWanet(a, x) => UnwrapCounts(m.dex, a, x);
  }

  lemma StepIssues(m: Market, step: Step)
    requires Dex.DexOk(m.dex) && Do(m, step).Some?
    ensures
      var n := Do(m, step).value;
      && Dex.AnetTotal(n.dex) == Dex.AnetTotal(m.dex) + IssuedBy(step)
      && SupplyOf(n, Dex.WANET) == SupplyOf(m, Dex.WANET) + IssuedBy(step)
      && Dex.TokenTotal(n.dex, Dex.WANET) == Dex.TokenTotal(m.dex, Dex.WANET) + IssuedBy(step) + WrappedBy(step)
  {
    if step.Trade? {
      TradeWraps(m, step.op);
    } else {
      TokenStepIssues(m, step);
      TokenStepRegisters(m, step);
      TokenStepKeepsAnts(m, step);
    }
  }

  lemma {:induction false} RunIssues(m: Market, steps: seq<Step>)
    requires RegistryOk(m) && Dex.DexOk(m.dex) && DoAll(m, steps).Some?
    ensures
      var end := DoAll(m, steps).value;
      && Dex.AnetTotal(end.dex) == Dex.AnetTotal(m.dex) + Issued(steps)
      && SupplyOf(end, Dex.WANET) == SupplyOf(m, Dex.WANET) + Issued(steps)
      && Dex.TokenTotal(end.dex, Dex.WANET) == Dex.TokenTotal(m.dex, Dex.WANET) + Issued(steps) + Wrapped(steps)
    decreases steps
  {
    if steps != [] {
      StepKeeps(m, steps[0]);
      StepIssues(m, steps[0]);
      RunIssues(Do(m, steps[0]).value, steps[1..]);
    }
  }

  lemma {:induction false} NothingIssued(steps: seq<Step>)
    ensures Issued(steps) == 0 <==> forall i :: 0 <= i < |steps| ==> IssuedBy(steps[i]) == 0
  {
    if steps != [] {
      NothingIssued(steps[1..]);
      assert forall i :: 0 <= i < |steps| - 1 ==> steps[1..][i] == steps[i + 1];
      assert IssuedBy(steps[0]) > 0 ==> Issued(steps) > 0;
      assert forall i :: 1 <= i < |steps| ==> steps[i] == steps[1..][i - 1];
    }
  }

  /** Main result: over any run of Ok token and DEX operations the ANET total grows by exactly the
      WANET units that token operations issue, which is what they add to the registered supply of
      WANET. So ANET is conserved if and only if none of them issues any. What accounts and pool
      hold of WANET exceeds its registered supply by what was wrapped less what was unwrapped. */
  lemma TokenRunsMakeAnet(m: Market, steps: seq<Step>)
    requires RegistryOk(m) && Dex.DexOk(m.dex) && DoAll(m, steps).Some?
    ensures
      var end := DoAll(m, steps).value;
      && Dex.AnetTotal(end.dex) == Dex.AnetTotal(m.dex) + Issued(steps)
      && SupplyOf(end, Dex.WANET) == SupplyOf(m, Dex.WANET) + Issued(steps)
      && Excess(end, Dex.WANET) == Excess(m, Dex.WANET) + Wrapped(steps)
      && (Dex.AnetTotal(end.dex) == Dex.AnetTotal(m.dex) <==>
          forall i :: 0 <= i < |steps| ==> IssuedBy(steps[i]) == 0)
  {
    RunIssues(m, steps);
    NothingIssued(steps);
  }

  // --- units for nothing ------------------------------------------------------------

  lemma NameIsFree()
    ensures Dex.ValidSymbol(Dex.WANET) && Text.Trim("W") == "W"
  {
    Text.TrimEndsTrimmed("W");
  }

  /** Whoever may use the DEX and has no WANET. */
  ghost predicate Newcomer(m: Market, a: Address, supply: u64) {
    && Dex.EligibleAccount(m.dex, a).Success? && Dex.Asset(m.dex.accounts[a], Dex.WANET) == 0
    && m.dex.accounts[a].ants + supply <= U64_MAX
  }

  lemma WanetCreated(m: Market, a: Address, supply: u64, mintable: bool) returns (n: Market)
    requires Dex.WANET !in m.registry && Newcomer(m, a, supply) && supply > 0
    ensures Do(m, CreateStep(a, Dex.WANET, "W", 0, supply, mintable)) == Some(n)
    ensures Dex.WANET in n.registry && n.registry[Dex.WANET].supply == supply
    ensures n.dex == m.dex.(accounts := n.dex.accounts)
    ensures
      var acct := m.dex.accounts[a];
      n.dex.accounts == m.dex.accounts[a := acct.(assets := acct.assets[Dex.WANET := supply])]
  {
    NameIsFree();
    n := CreateToken(m, a, Dex.WANET, "W", 0, supply, mintable).value;
  }

  lemma WanetRedeemed(m: Market, a: Address, supply: u64) returns (n: Market)
    requires Dex.EligibleAccount(m.dex, a).Success? && supply > 0
    requires Dex.Asset(m.dex.accounts[a], Dex.WANET) == supply && m.dex.accounts[a].ants + supply <= U64_MAX
    ensures Do(m, Trade(Dex.UnwrapWanet(a, supply))) == Some(n) && n.registry == m.registry
    ensures
      var acct := m.dex.accounts[a];
      n.dex.accounts == m.dex.accounts[
                        a := Receive(acct.(assets := acct.assets[Dex.WANET := 0]), supply)]
  {
    n := m.(dex := Dex.Unwrap(m.dex, a, supply).value);
  }

  /** Main result: wherever WANET is not a token yet, an eligible account creates it with any supply
      that fits its balance, unwraps the units and owns that many more ants. Nobody else's account
      changes, so the ants come out of nothing, and the registered supply stays. */
  lemma WanetForNothing(m: Market, a: Address, supply: u64, mintable: bool)
    requires Dex.WANET !in m.registry && Newcomer(m, a, supply) && supply > 0
    ensures
      var end := DoAll(m, [CreateStep(a, Dex.WANET, "W", 0, supply, mintable), Trade(Dex.UnwrapWanet(a, supply))]);
      && end.Some?
      && Balance(end.value.dex.accounts, a) == Balance(m.dex.accounts, a) + supply
      && Dex.Asset(Get(end.value.dex.accounts, a), Dex.WANET) == 0
      && (forall b :: b != a ==> Get(end.value.dex.accounts, b) == Get(m.dex.accounts, b))
      && SupplyOf(end.value, Dex.WANET) == supply
      && Solvency.Supply(end.value.dex.accounts) == Solvency.Supply(m.dex.accounts) + supply
  {
    var create, redeem := CreateStep(a, Dex.WANET, "W", 0, supply, mintable), Trade(Dex.UnwrapWanet(a, supply));
    var made := WanetCreated(m, a, supply, mintable);
    var end := WanetRedeemed(made, a, supply);
    TwoSteps(m, create, redeem);
    Solvency.SupplyUpdate(m.dex.accounts, a, made.dex.accounts[a]);
    Solvency.SupplyUpdate(made.dex.accounts, a, end.dex.accounts[a]);
  }

  lemma TwoSteps(m: Market, x: Step, y: Step)
    requires Do(m, x).Some?
    ensures DoAll(m, [x, y]) == Do(Do(m, x).value, y)
  {
    assert [x, y][1..] == [y] && [y][1..] == [];
    assert DoAll(Do(m, x).value, [y]) == Do(Do(m, x).value, y);
  }
}
