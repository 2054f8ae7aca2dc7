/** What every account operation keeps about activated ants, and what a series of syncs
    credits in all. Also the wallet migration and the bridge burn (src/state.rs:1131-1312). */
module ActivatedSupply {
  import opened Wrappers
  import opened Ledger
  import opened Activation
  import opened Sums
  import opened Solvency
  import Replay
  import Dex
  import DexErrors

  // --- migration and burn -----------------------------------------------------

  function MergedAsset(x: Account, y: Account, s: string): nat {
    Dex.Asset(x, s) + Dex.Asset(y, s)
  }

  predicate MergeFits(x: Account, y: Account) {
    && x.ants + y.ants <= U64_MAX
    && x.activated + y.activated <= U64_MAX
    && x.totalActivated + y.totalActivated <= U64_MAX
    && x.sessions + y.sessions <= U64_MAX
    && forall s :: s in x.assets.Keys + y.assets.Keys ==> MergedAsset(x, y, s) <= U64_MAX
  }

  function Merge(x: Account, y: Account): Account
    requires MergeFits(x, y)
  {
    Account(x.ants + y.ants, x.activated + y.activated, x.totalActivated + y.totalActivated, x.sessions + y.sessions,
            map s | s in x.assets.Keys + y.assets.Keys :: MergedAsset(x, y, s))
  }

  /** The legacy account keeps only its historical activation total. */
  function Emptied(x: Account): Account {
    Account(0, 0, x.totalActivated, 0, map[])
  }

  /** `migrate_legacy_to_secp`, on normalised addresses. */
  function Migrate(accounts: Accounts, legacy: Address, secp: Address): Option<Accounts> {
    if legacy == secp || legacy !in accounts || !MergeFits(Get(accounts, secp), accounts[legacy]) then None
    else
      Some(accounts[legacy := Emptied(accounts[legacy])][secp := Merge(Get(accounts, secp), accounts[legacy])])
  }

  /** Some of the assets have been merged, in whatever order the map yields them. */
  ghost predicate AssetsPartly(x: Account, y: Account, z: map<string, u64>) {
    && x.assets.Keys <= z.Keys <= x.assets.Keys + y.assets.Keys
    && forall s :: s in z ==> (s in x.assets && z[s] == x.assets[s]) || z[s] == MergedAsset(x, y, s)
  }

  /** `z` is what a failing migration leaves of the receiving account `x`: the fields before the
      one that overflows have grown. */
  ghost predicate PartlyMerged(x: Account, y: Account, z: Account) {
    if x.ants + y.ants > U64_MAX then z == x
    else
      var a := x.(ants := x.ants + y.ants);
      if x.activated + y.activated > U64_MAX then z == a
      else
        var b := a.(activated := x.activated + y.activated);
        if x.totalActivated + y.totalActivated > U64_MAX then z == b
        else
          var c := b.(totalActivated := x.totalActivated + y.totalActivated);
          if x.sessions + y.sessions > U64_MAX then z == c
          else z == c.(sessions := x.sessions + y.sessions, assets := z.assets) && AssetsPartly(x, y, z.assets)
  }

  /** The accounts after a migration that returns an error. */
  ghost predicate MigrationLeft(accounts: Accounts, legacy: Address, secp: Address, after: Accounts) {
    if legacy == secp || legacy !in accounts then after == accounts
    else
      && secp in accounts && secp in after
      && PartlyMerged(accounts[secp], accounts[legacy], after[secp])
      && after == accounts[legacy := Emptied(accounts[legacy])][secp := after[secp]]
  }

  /** Main result: an Err of a migration leaves the state as it was if and only if the call is
      refused at once or the legacy account holds nothing. */
  lemma MigrationErrIsClean(accounts: Accounts, legacy: Address, secp: Address, after: Accounts)
    requires Migrate(accounts, legacy, secp).None? && MigrationLeft(accounts, legacy, secp, after)
    ensures after == accounts <==>
            legacy == secp || legacy !in accounts || accounts[legacy] == Emptied(accounts[legacy])
  {
    if legacy != secp && legacy in accounts {
      var x, y := accounts[secp], accounts[legacy];
      assert after[legacy] == Emptied(y);
      if y == Emptied(y) {
        EmptyMergesToSame(x, y, after[secp]);
        assert after == accounts;
      }
    }
  }

  lemma EmptyMergesToSame(x: Account, y: Account, z: Account)
    requires y == Emptied(y) && !MergeFits(x, y) && PartlyMerged(x, y, z)
    ensures z == x
  {
    forall s | s in x.assets.Keys + y.assets.Keys ensures MergedAsset(x, y, s) <= U64_MAX {
    }
  }

  /** The fee of a burn is shared among the validators; what cannot be shared goes to the
      reserve account, but only if that account exists. */
  function ShareBurnFee(accounts: Accounts, validators: seq<Address>): Result<Accounts, LedgerError> {
    if validators == [] then
      if FEE_RESERVE in accounts then Apply(accounts, [Credit(FEE_RESERVE, MIN_FEE_ANTS)]) else Success(accounts)
    else
      var per, rest := MIN_FEE_ANTS / |validators|, MIN_FEE_ANTS % |validators|;
      var paid :- Apply(accounts, if per > 0 then MinerEntries(validators, per) else []);
      if rest > 0 && FEE_RESERVE in paid then Apply(paid, [Credit(FEE_RESERVE, rest)]) else Success(paid)
  }

  /** The accounts after the sharing, finished or not. */
  function ShareKept(accounts: Accounts, validators: seq<Address>): Accounts {
    if validators == [] then
      if FEE_RESERVE in accounts then Kept(accounts, [Credit(FEE_RESERVE, MIN_FEE_ANTS)]) else accounts
    else
      var per, rest := MIN_FEE_ANTS / |validators|, MIN_FEE_ANTS % |validators|;
      var shares := if per > 0 then MinerEntries(validators, per) else [];
      var paid := Apply(accounts, shares);
      if paid.Failure? then Kept(accounts, shares)
      else if rest > 0 && FEE_RESERVE in paid.value then Kept(paid.value, [Credit(FEE_RESERVE, rest)])
      else paid.value
  }

  /** The accounts after a burn, whatever it returns. */
  function BurnKept(accounts: Accounts, a: Address, amount: u64, validators: seq<Address>): Accounts {
    if amount == 0 || amount + MIN_FEE_ANTS > U64_MAX || a !in accounts || accounts[a].ants < amount + MIN_FEE_ANTS then
      accounts
    else ShareKept(accounts[a := Spend(accounts[a], amount + MIN_FEE_ANTS)], validators)
  }

  /** `bridge_burn_anet`. */
  function Burn(accounts: Accounts, a: Address, amount: u64, validators: seq<Address>): Result<Accounts, LedgerError> {
    if amount == 0 || amount + MIN_FEE_ANTS > U64_MAX then Failure(DebitOverflow)
    else if a !in accounts then Failure(SenderMissing)
    else if accounts[a].ants < amount + MIN_FEE_ANTS then Failure(Underflow)
    else ShareBurnFee(accounts[a := Spend(accounts[a], amount + MIN_FEE_ANTS)], validators)
  }

  /** When all of the fee finds an account. */
  predicate FeeFullyPaid(accounts: Accounts, validators: seq<Address>) {
    || FEE_RESERVE in accounts
    || (validators != [] && MIN_FEE_ANTS % |validators| == 0)
    || (0 < |validators| <= MIN_FEE_ANTS && FEE_RESERVE in validators)
  }

  /** The part of a burn's fee that finds no account: nothing when the reserve exists or is itself a
      seat with a share, the whole fee without seats, and otherwise the remainder. */
  function LostFee(accounts: Accounts, validators: seq<Address>): nat {
    if FeeFullyPaid(accounts, validators) then 0
    else if validators == [] then MIN_FEE_ANTS
    else MIN_FEE_ANTS % |validators|
  }

  lemma ApplyOneCredit(accounts: Accounts, a: Address, x: nat)
    requires Apply(accounts, [Credit(a, x)]).Success?
    ensures Apply(accounts, [Credit(a, x)]).value == AddAnts(accounts, a, x)
    ensures Supply(Apply(accounts, [Credit(a, x)]).value) == Supply(accounts) + x
  {
    assert [Credit(a, x)][1..] == [];
    SupplyUpdate(accounts, a, Receive(Get(accounts, a), x));
  }

  lemma {:induction false} CreditedSupply(accounts: Accounts, es: seq<Entry>)
    requires OnlyCredits(es) && Apply(accounts, es).Success?
    ensures Supply(Apply(accounts, es).value) == Supply(accounts) + AllCredits(es)
    decreases es
  {
    if es != [] {
      var next := AddAnts(accounts, es[0].who, es[0].amount);
      SupplyUpdate(accounts, es[0].who, next[es[0].who]);
      CreditedSupply(next, es[1..]);
    }
  }

  lemma {:induction false} MinersTouched(miners: seq<Address>, share: nat, a: Address)
    ensures a in Touched(MinerEntries(miners, share)) <==> a in miners
  {
    if miners != [] {
      MinersTouched(miners[1..], share, a);
      TouchedConcat([Credit(miners[0], share)], MinerEntries(miners[1..], share), a);
      assert [Credit(miners[0], share)][0].who == miners[0];
      assert a in Touched([Credit(miners[0], share)]) <==> a == miners[0];
    }
  }

  /** Even shares and remainder; a share is positive unless validators outnumber the fee. */
  lemma FeeParts(n: nat)
    requires n > 0
    ensures n * (MIN_FEE_ANTS / n) + MIN_FEE_ANTS % n == MIN_FEE_ANTS
    ensures MIN_FEE_ANTS / n > 0 <==> n <= MIN_FEE_ANTS
    ensures n > MIN_FEE_ANTS ==> MIN_FEE_ANTS % n == MIN_FEE_ANTS
  {
    var q, r := MIN_FEE_ANTS / n, MIN_FEE_ANTS % n;
    assert n * q + r == MIN_FEE_ANTS && r < n;
    if q > 0 {
      assert n * q >= n;
    } else {
      assert n * q == 0;
    }
  }

  lemma PaidShares(accounts: Accounts, validators: seq<Address>, per: nat)
    requires validators != []
    requires var es := if per > 0 then MinerEntries(validators, per) else []; Apply(accounts, es).Success?
    ensures
      var es := if per > 0 then MinerEntries(validators, per) else [];
      var paid := Apply(accounts, es).value;
      && Supply(paid) == Supply(accounts) + |validators| * per
      && (FEE_RESERVE in paid <==> FEE_RESERVE in accounts || (per > 0 && FEE_RESERVE in validators))
  {
    var es := if per > 0 then MinerEntries(validators, per) else [];
    MinerCredits(validators, per);
    CreditedSupply(accounts, es);
    ApplyKeys(accounts, es);
    MinersTouched(validators, per, FEE_RESERVE);
  }

  lemma SharedFee(accounts: Accounts, validators: seq<Address>)
    requires ShareBurnFee(accounts, validators).Success?
    ensures Supply(ShareBurnFee(accounts, validators).value) ==
        Supply(accounts) + MIN_FEE_ANTS - LostFee(accounts, validators)
    ensures LostFee(accounts, validators) == 0 <==> FeeFullyPaid(accounts, validators)
  {
    if validators == [] {
      if FEE_RESERVE in accounts {
        ApplyOneCredit(accounts, FEE_RESERVE, MIN_FEE_ANTS);
      }
    } else {
      var per, rest := MIN_FEE_ANTS / |validators|, MIN_FEE_ANTS % |validators|;
      FeeParts(|validators|);
      PaidShares(accounts, validators, per);
      var paid := Apply(accounts, if per > 0 then MinerEntries(validators, per) else []).value;
      if rest > 0 && FEE_RESERVE in paid {
        ApplyOneCredit(paid, FEE_RESERVE, rest);
      }
    }
  }

  /** Main result: a burn destroys the bridged amount and the lost part of its fee; that is exactly
      the amount, as its documentation promises, if and only if the whole fee finds an account. */
  lemma BurnDestroysExactlyAmount(accounts: Accounts, a: Address, amount: u64, validators: seq<Address>)
    requires Burn(accounts, a, amount, validators).Success?
    ensures Supply(Burn(accounts, a, amount, validators).value) ==
        Supply(accounts) - amount - LostFee(accounts, validators)
    ensures Supply(Burn(accounts, a, amount, validators).value) == Supply(accounts) - amount <==>
        FeeFullyPaid(accounts, validators)
  {
    var spent := accounts[a := Spend(accounts[a], amount + MIN_FEE_ANTS)];
    SupplyUpdate(accounts, a, spent[a]);
    SharedFee(spent, validators);
  }

  /** It does fail: with three seats and no reserve account one ant of the fee is destroyed too. */
  lemma ThreeSeatsLoseAnAnt(a: Address, x: Address, y: Address, z: Address)
    requires a !in {x, y, z} && FEE_RESERVE !in {a, x, y, z}
    requires x != y && y != z && x != z
    ensures
      var accounts := map[a := Account(5_000, 0, 0, 0, map[])];
      var burned := Burn(accounts, a, 2_000, [x, y, z]);
      burned.Success? && Supply(burned.value) == Supply(accounts) - 2_001
  {
    var accounts := map[a := Account(5_000, 0, 0, 0, map[])];
    var spent := accounts[a := Spend(accounts[a], 3_000)];
    SupplyUpdate(map[], a, accounts[a]);
    SupplyUpdate(accounts, a, spent[a]);
    MinerCredits([x, y, z], 333);
    CreditsApply(spent, MinerEntries([x, y, z], 333));
    PaidShares(spent, [x, y, z], 333);
    BurnDestroysExactlyAmount(accounts, a, 2_000, [x, y, z]);
  }

  /** A burn that returns Ok leaves its result. */
  lemma BurnOkIsKept(accounts: Accounts, a: Address, amount: u64, validators: seq<Address>)
    requires Burn(accounts, a, amount, validators).Success?
    ensures BurnKept(accounts, a, amount, validators) == Burn(accounts, a, amount, validators).value
  {
    var spent := accounts[a := Spend(accounts[a], amount + MIN_FEE_ANTS)];
    if validators == [] {
      KeptConcat(spent, [Credit(FEE_RESERVE, MIN_FEE_ANTS)], []);
    } else {
      var per, rest := MIN_FEE_ANTS / |validators|, MIN_FEE_ANTS % |validators|;
      var paid := Apply(spent, if per > 0 then MinerEntries(validators, per) else []);
      KeptConcat(paid.value, [Credit(FEE_RESERVE, rest)], []);
    }
  }

  /** A migration neither creates nor destroys ants. */
  lemma MigrationKeepsSupply(accounts: Accounts, legacy: Address, secp: Address)
    requires Migrate(accounts, legacy, secp).Some?
    ensures Supply(Migrate(accounts, legacy, secp).value) == Supply(accounts)
    ensures forall s :: Sum(Dex.Held(Migrate(accounts, legacy, secp).value, s)) == Sum(Dex.Held(accounts, s))
  {
    var x, y := accounts[legacy], Get(accounts, secp);
    var mid := accounts[legacy := Emptied(x)];
    SupplyUpdate(accounts, legacy, Emptied(x));
    SupplyUpdate(mid, secp, Merge(y, x));
    var d := Dex.Dex(accounts, map[], {});
    Dex.AccountChange(d, legacy, Emptied(x));
    Dex.AccountChange(d.(accounts := mid), secp, Merge(y, x));
    forall s ensures Dex.Asset(Merge(y, x), s) == Dex.Asset(y, s) + Dex.Asset(x, s) {
      assert Merge(y, x).assets.Keys == y.assets.Keys + x.assets.Keys;
    }
    assert forall s :: Dex.Asset(Emptied(x), s) == 0;
  }

  // --- activated ants never exceed the balance ---------------------------------

  ghost predicate ActivatedOk(accounts: Accounts) {
    forall a :: a in accounts ==> accounts[a].activated <= accounts[a].ants
  }

  /** A call that changes accounts. `pending` is the node's counter at that moment; `pools` and
      `left` are what a failing trade, and a failing clawback or migration, leave of the pools and
      of the accounts. */
  datatype Change =
    | SyncStep(rows: seq<Snapshot>, pending: u64, left: Accounts)
    | ApplyStep(block: Block)
    | FundStep(a: Address, x: u64)
    | TopUpStep(c: Replay.Amounts)
    | DexStep(op: Dex.Op, pools: map<string, Dex.Pool>)
    | MigrateStep(legacy: Address, secp: Address, left: Accounts)
    | BurnStep(a: Address, amount: u64, validators: seq<Address>)

  /** The row loop of a sync ends without an error. */
  ghost predicate RowsEnd(accounts: Accounts, rows: seq<Snapshot>, pending: u64) {
    SyncRows(accounts, rows).Success? && pending + Credited(accounts, rows) <= U64_MAX
  }

  /** The clawback of a sync ends without an error. */
  ghost predicate ClawbackEnds(accounts: Accounts, rows: seq<Snapshot>) {
    Clawback(accounts, rows).Success? && Sum(Removals(accounts, rows)) <= U64_MAX
  }

  /** The accounts after a sync; `left` is what a clawback that returns an error leaves. */
  ghost function AfterSync(accounts: Accounts, rows: seq<Snapshot>, pending: u64, left: Accounts): Option<Accounts> {
    var credited := RowsKept(accounts, rows, pending);
    if !RowsEnd(accounts, rows, pending) then Some(credited)
    else if ClawbackEnds(credited, rows) then Some(Clawback(credited, rows).value)
    else if ClawbackLeft(credited, rows, left) then Some(left)
    else None
  }

  /** The state after a call, whether it returns Ok or Err. None: the call cannot end like this. */
  ghost function After(d: Dex.Dex, ch: Change): Option<Dex.Dex> {
    match ch
    case SyncStep(rows, pending, left) =>
      var r := AfterSync(d.accounts, rows, pending, left);
      if r.Some? then Some(d.(accounts := r.value)) else None
    case ApplyStep(b) => Some(d.(accounts := Kept(d.accounts, BlockEntries(b))))
    case FundStep(a, x) =>
      if Balance(d.accounts, a) + x > U64_MAX then None else Some(d.(accounts := AddAnts(d.accounts, a, x)))
    case TopUpStep(c) =>
      if Replay.Fits(d.accounts, c) then Some(d.(accounts := Replay.UpFront(d.accounts, c))) else None
    case DexStep(op, pools) =>
      var r := Dex.Do(d, op);
      Some(if r.Success? then r.value else d.(accounts := DexErrors.Residue(d, op), pools := pools))
    case MigrateStep(l, s, left) =>
      var r := Migrate(d.accounts, l, s);
      if r.Some? then Some(d.(accounts := r.value))
      else if MigrationLeft(d.accounts, l, s, left) then Some(d.(accounts := left))
      else None
    case BurnStep(a, amount, validators) => Some(d.(accounts := BurnKept(d.accounts, a, amount, validators)))
  }

  ghost function AfterAll(d: Dex.Dex, chs: seq<Change>): Option<Dex.Dex>
    decreases chs
  {
    if chs == [] then Some(d)
    else if After(d, chs[0]).None? then None
    else AfterAll(After(d, chs[0]).value, chs[1..])
  }

  lemma {:induction false} KeptKeepsActivatedOk(accounts: Accounts, es: seq<Entry>)
    requires ActivatedOk(accounts)
    ensures ActivatedOk(Kept(accounts, es))
    ensures Apply(accounts, es).Success? ==> ActivatedOk(Apply(accounts, es).value)
    decreases es
  {
    if es != [] && ApplyEntry(accounts, es[0]).Success? {
      KeptKeepsActivatedOk(ApplyEntry(accounts, es[0]).value, es[1..]);
    }
  }

  lemma {:induction false} RowsKeepActivatedOk(accounts: Accounts, rows: seq<Snapshot>, pending: nat)
    requires ActivatedOk(accounts)
    ensures ActivatedOk(RowsKept(accounts, rows, pending))
    decreases rows
  {
    if rows != [] {
      RowKeepsActivatedOk(accounts, rows[0]);
      RowsKeepActivatedOk(RowKept(accounts, rows[0]), rows[1..], pending + RowDelta(accounts, rows[0]));
    }
  }

  lemma RowKeepsActivatedOk(accounts: Accounts, row: Snapshot)
    requires ActivatedOk(accounts)
    ensures ActivatedOk(RowKept(accounts, row))
  {
    assert Get(accounts, row.address).activated <= Get(accounts, row.address).ants;
  }

  /** When the whole row loop succeeds, it leaves its result. */
  lemma {:induction false} RowsKeptAll(accounts: Accounts, rows: seq<Snapshot>, pending: nat)
    requires SyncRows(accounts, rows).Success? && pending + Credited(accounts, rows) <= U64_MAX
    ensures RowsKept(accounts, rows, pending) == SyncRows(accounts, rows).value
    decreases rows
  {
    if rows != [] {
      RowsKeptAll(SyncRow(accounts, rows[0]).value, rows[1..], pending + RowDelta(accounts, rows[0]));
    }
  }

  lemma RowsKeptWhenEnds(accounts: Accounts, rows: seq<Snapshot>, pending: u64)
    ensures RowsEnd(accounts, rows, pending) ==> RowsKept(accounts, rows, pending) == SyncRows(accounts, rows).value
  {
    if RowsEnd(accounts, rows, pending) {
      RowsKeptAll(accounts, rows, pending);
    }
  }

  lemma BurnKeepsActivatedOk(accounts: Accounts, a: Address, amount: u64, validators: seq<Address>)
    requires ActivatedOk(accounts)
    ensures ActivatedOk(BurnKept(accounts, a, amount, validators))
  {
    if BurnKept(accounts, a, amount, validators) != accounts {
      ShareKeepsActivatedOk(accounts[a := Spend(accounts[a], amount + MIN_FEE_ANTS)], validators);
    }
  }

  lemma ShareKeepsActivatedOk(accounts: Accounts, validators: seq<Address>)
    requires ActivatedOk(accounts)
    ensures ActivatedOk(ShareKept(accounts, validators))
  {
    if validators == [] {
      KeptKeepsActivatedOk(accounts, [Credit(FEE_RESERVE, MIN_FEE_ANTS)]);
    } else {
      var per, rest := MIN_FEE_ANTS / |validators|, MIN_FEE_ANTS % |validators|;
      var shares := if per > 0 then MinerEntries(validators, per) else [];
      KeptKeepsActivatedOk(accounts, shares);
      if Apply(accounts, shares).Success? {
        KeptKeepsActivatedOk(Apply(accounts, shares).value, [Credit(FEE_RESERVE, rest)]);
      }
    }
  }

  lemma DexKeepsActivatedOk(d: Dex.Dex, op: Dex.Op)
    requires ActivatedOk(d.accounts) && Dex.Do(d, op).Success?
    ensures ActivatedOk(Dex.Do(d, op).value.accounts)
  {
    match op
    case Create(a, s, x, t, fee) => DepositKeeps(d, a, s, x, t);
    case Add(a, s, x, t) => Dex.AddedPool(d, a, s, x, t); DepositKeeps(d, a, s, x, t);
    case SwapIn(a, s, x, dir, minOut, h, deadline) =>
      assert d.accounts[a].activated <= d.accounts[a].ants;
    case WrapAnet(a, x) =>
      assert d.accounts[a].activated <= d.accounts[a].ants;
    case UnwrapWanet(a, x) =>
      assert d.accounts[a].activated <= d.accounts[a].ants;
  }

  lemma DepositKeeps(d: Dex.Dex, a: Address, symbol: string, anet: u64, token: u64)
    requires ActivatedOk(d.accounts) && Dex.Deposit(d, a, symbol, anet, token).Success?
    ensures Dex.Deposit(d, a, symbol, anet, token).value.activated <= Dex.Deposit(d, a, symbol, anet, token).value.ants
  {
    assert d.accounts[a].activated <= d.accounts[a].ants;
  }

  lemma ResidueKeepsActivatedOk(d: Dex.Dex, op: Dex.Op)
    requires ActivatedOk(d.accounts)
    ensures ActivatedOk(DexErrors.Residue(d, op))
  {
    forall a | a in d.accounts ensures d.accounts[a].activated <= d.accounts[a].ants {
    }
  }

  lemma MigrationKeepsActivatedOk(accounts: Accounts, legacy: Address, secp: Address, left: Accounts)
    requires ActivatedOk(accounts)
    ensures Migrate(accounts, legacy, secp).Some? ==> ActivatedOk(Migrate(accounts, legacy, secp).value)
    ensures Migrate(accounts, legacy, secp).None? && MigrationLeft(accounts, legacy, secp, left) ==> ActivatedOk(left)
  {
  }

  lemma ClawbackKeepsActivatedOk(accounts: Accounts, rows: seq<Snapshot>)
    requires ActivatedOk(accounts) && Clawback(accounts, rows).Success?
    ensures ActivatedOk(Clawback(accounts, rows).value)
  {
  }

  /** A clawback that stops over its total at `a` leaves the invariant if and only if `a` owned at
      least twice what it had activated; one that stops over a balance needs it broken before. */
  lemma StoppedKeepsActivatedOkIff(before: Accounts, rows: seq<Snapshot>, todo: set<Address>, a: Address,
                                   left: Accounts)
    requires ActivatedOk(before) && StoppedAt(before, rows, todo, a, left)
    ensures ActivatedOk(left) <==> 2 * before[a].activated <= before[a].ants
  {
    assert left[a].activated == before[a].activated && left[a].ants == before[a].ants - before[a].activated;
    if 2 * before[a].activated <= before[a].ants {
      forall b | b in left ensures left[b].activated <= left[b].ants {
        if b != a && b !in todo {
          assert b in before.Keys - todo && left[a := before[a]][b] == left[b];
        } else if b != a {
          assert left[a := before[a]][b] == left[b] == before[b];
        }
      }
    }
  }

  /** The guard: the clawback ends, or stops at a wallet that owns twice what it has activated. */
  ghost predicate Spared(d: Dex.Dex, ch: Change) {
    ch.SyncStep? && RowsEnd(d.accounts, ch.rows, ch.pending) ==>
      var credited := RowsKept(d.accounts, ch.rows, ch.pending);
      || ClawbackEnds(credited, ch.rows)
      || exists todo, a :: StoppedAt(credited, ch.rows, todo, a, ch.left) &&
          2 * credited[a].activated <= credited[a].ants
  }

  lemma SyncKeepsActivatedOkIff(d: Dex.Dex, rows: seq<Snapshot>, pending: u64, left: Accounts)
    requires ActivatedOk(d.accounts) && After(d, SyncStep(rows, pending, left)).Some?
    ensures ActivatedOk(After(d, SyncStep(rows, pending, left)).value.accounts) <==>
        Spared(d, SyncStep(rows, pending, left))
  {
    var credited := RowsKept(d.accounts, rows, pending);
    RowsKeepActivatedOk(d.accounts, rows, pending);
    if RowsEnd(d.accounts, rows, pending) {
      if ClawbackEnds(credited, rows) {
        ClawbackKeepsActivatedOk(credited, rows);
      } else {
        forall todo, a | StoppedAt(credited, rows, todo, a, left)
          ensures ActivatedOk(left) <==> 2 * credited[a].activated <= credited[a].ants
        {
          StoppedKeepsActivatedOkIff(credited, rows, todo, a, left);
        }
      }
    }
  }

  lemma ChangeKeepsActivatedOkIff(d: Dex.Dex, ch: Change)
    requires ActivatedOk(d.accounts) && After(d, ch).Some?
    ensures ActivatedOk(After(d, ch).value.accounts) <==> Spared(d, ch)
  {
    match ch
    case SyncStep(rows, pending, left) => SyncKeepsActivatedOkIff(d, rows, pending, left);
    case ApplyStep(b) => KeptKeepsActivatedOk(d.accounts, BlockEntries(b));
    case FundStep(a, x) =>
    case TopUpStep(c) => TopUpsKeepActivatedOk(d.accounts, c);
    case DexStep(op, pools) =>
      ResidueKeepsActivatedOk(d, op);
      if Dex.Do(d, op).Success? {
        DexKeepsActivatedOk(d, op);
      }
    case MigrateStep(l, s, left) => MigrationKeepsActivatedOk(d.accounts, l, s, left);
    case BurnStep(a, amount, validators) => BurnKeepsActivatedOk(d.accounts, a, amount, validators);
  }

  lemma TopUpsKeepActivatedOk(accounts: Accounts, c: Replay.Amounts)
    requires ActivatedOk(accounts) && Replay.Fits(accounts, c)
    ensures ActivatedOk(Replay.UpFront(accounts, c))
  {
    var r := Replay.UpFront(accounts, c);
    forall a | a in r ensures r[a].activated <= r[a].ants {
      assert r[a] == if a in c then Replay.TopUp(Get(accounts, a), c[a]) else accounts[a];
      assert Get(accounts, a).activated <= Get(accounts, a).ants;
    }
  }

  /** The invariant holds at the start of a run and after every call of it. */
  ghost predicate AlwaysActivatedOk(d: Dex.Dex, chs: seq<Change>)
    requires AfterAll(d, chs).Some?
    decreases chs
  {
    ActivatedOk(d.accounts) && (chs == [] || AlwaysActivatedOk(After(d, chs[0]).value, chs[1..]))
  }

  ghost predicate AllSpared(d: Dex.Dex, chs: seq<Change>)
    requires AfterAll(d, chs).Some?
    decreases chs
  {
    chs == [] || (Spared(d, chs[0]) && AllSpared(After(d, chs[0]).value, chs[1..]))
  }

  /** Main result: take any run of syncs, blocks, treasury funding, replay top-ups, trades, migrations
      and burns from a state in which no account has more activated than owned, whatever these
      calls return. It stays so throughout if and only if each clawback that fails over its total
      stops at a wallet that owns at least twice what it has activated. Then the clawback of the
      next sync never underflows. */
  lemma {:induction false} ActivatedNeverExceedsBalance(d: Dex.Dex, chs: seq<Change>, rows: seq<Snapshot>)
    requires ActivatedOk(d.accounts) && AfterAll(d, chs).Some?
    ensures AlwaysActivatedOk(d, chs) <==> AllSpared(d, chs)
    ensures AllSpared(d, chs) ==>
              && ActivatedOk(AfterAll(d, chs).value.accounts)
              && Sync(AfterAll(d, chs).value.accounts, rows) != Failure(Underflow)
    decreases chs
  {
    if chs == [] {
      if SyncRows(d.accounts, rows).Success? {
        SyncRowsKeepActivatedOk(d.accounts, rows);
      } else {
        RowsOnlyOverflow(d.accounts, rows);
      }
    } else {
      ChangeKeepsActivatedOkIff(d, chs[0]);
      if Spared(d, chs[0]) {
        ActivatedNeverExceedsBalance(After(d, chs[0]).value, chs[1..], rows);
      }
    }
  }

  lemma {:induction false} SyncRowsKeepActivatedOk(accounts: Accounts, rows: seq<Snapshot>)
    requires ActivatedOk(accounts) && SyncRows(accounts, rows).Success?
    ensures ActivatedOk(SyncRows(accounts, rows).value)
    decreases rows
  {
    if rows != [] {
      RowKeepsActivatedOk(accounts, rows[0]);
      SyncRowsKeepActivatedOk(SyncRow(accounts, rows[0]).value, rows[1..]);
    }
  }

  lemma {:induction false} RowsOnlyOverflow(accounts: Accounts, rows: seq<Snapshot>)
    requires SyncRows(accounts, rows).Failure?
    ensures SyncRows(accounts, rows) == Failure(CreditOverflow)
    decreases rows
  {
    if rows != [] && SyncRow(accounts, rows[0]).Success? {
      RowsOnlyOverflow(SyncRow(accounts, rows[0]).value, rows[1..]);
    }
  }

  lemma {:induction false} SmallerTerms(m: map<Address, int>, n: map<Address, int>)
    requires (forall a :: a in m ==> a in n && 0 <= m[a] <= n[a]) && (forall a :: a in n ==> n[a] >= 0)
    ensures Sum(m) <= Sum(n)
    decreases |m|
  {
    if m == map[] {
      if n != map[] {
        var a :| a in n;
        SumAtLeast(n, a);
      }
    } else {
      var a :| a in m;
      SumRemove(m, a);
      SumRemove(n, a);
      SmallerTerms(m - {a}, n - {a});
    }
  }

  /** Main result: where no account has more activated than owned and the supply fits 64 bits, the
      clawback of a sync always succeeds, its total included. */
  lemma ClawbackNeverFails(accounts: Accounts, rows: seq<Snapshot>)
    requires ActivatedOk(accounts) && Supply(accounts) <= U64_MAX
    ensures Clawback(accounts, rows).Success? && Sum(Removals(accounts, rows)) <= U64_MAX
  {
    SmallerTerms(Removals(accounts, rows), Ants(accounts));
  }

  /** A supply of 64 bits spares every sync. */
  lemma SmallSupplySpares(d: Dex.Dex, ch: Change)
    requires ActivatedOk(d.accounts) && (ch.SyncStep? ==> Supply(RowsKept(d.accounts, ch.rows, ch.pending)) <= U64_MAX)
    ensures Spared(d, ch)
  {
    if ch.SyncStep? {
      RowsKeepActivatedOk(d.accounts, ch.rows, ch.pending);
      ClawbackNeverFails(RowsKept(d.accounts, ch.rows, ch.pending), ch.rows);
    }
  }

  /** Without such a bound it does fail: two wallets of 2^63 ants, as genesis rows give them, and a
      sync that lists neither. The second wallet is left with its activated remainder and no
      ants, and every later clawback that reaches it underflows. */
  lemma TwoLargeWalletsBreakClawback(x: Address, y: Address, pools: map<string, Dex.Pool>, funded: set<Address>)
    requires x != y
    ensures
      var full := Account(0x8000_0000_0000_0000, 0x8000_0000_0000_0000, 0x8000_0000_0000_0000, 0, map[]);
      var left := map[x := EMPTY, y := full.(ants := 0)];
      var d := Dex.Dex(map[x := full, y := full], pools, funded);
      && ActivatedOk(d.accounts)
      && After(d, SyncStep([], 0, left)) == Some(d.(accounts := left))
      && !ActivatedOk(left) && Clawback(left, []) == Failure(Underflow)
  {
    var full := Account(0x8000_0000_0000_0000, 0x8000_0000_0000_0000, 0x8000_0000_0000_0000, 0, map[]);
    var left := map[x := EMPTY, y := full.(ants := 0)];
    SecondWalletStops(x, y, full, 0x8000_0000_0000_0000);
    assert ClawedBack(left, [], y);
  }

  lemma SecondWalletStops(x: Address, y: Address, full: Account, n: u64)
    requires x != y && 2 * n > U64_MAX && full == Account(n, n, n, 0, map[])
    ensures
      var before, left := map[x := full, y := full], map[x := EMPTY, y := full.(ants := 0)];
      && !ClawbackEnds(before, [])
      && ClawbackLeft(before, [], left)
  {
    var before, left := map[x := full, y := full], map[x := EMPTY, y := full.(ants := 0)];
    var one: map<Address, int> := map[x := n];
    OneTerm(x, n);
    SumUpdate(one, y, n);
    assert Removals(before, []) == one[y := n as int];
    assert RemovedBut(before, [], {y}) == one;
    assert StoppedAt(before, [], {y}, y, left);
  }

  lemma OneTerm(x: Address, n: int)
    ensures Sum<Address>(map[x := n]) == n
  {
    var none: map<Address, int> := map[];
    SumUpdate(none, x, n);
    assert none[x := n] == map[x := n];
  }

  // --- what a series of syncs credits ------------------------------------------

  /** The highest balance any row reports for an address. */
  function Highest(rows: seq<Snapshot>, a: Address): u64 {
    if rows == [] then 0
    else if rows[0].address == a then Max(rows[0].ants, Highest(rows[1..], a))
    else Highest(rows[1..], a)
  }

  /** `y` is `x` after its watermark rose to `total`, and nothing else was credited. */
  ghost predicate Raised(x: Account, y: Account, total: u64) {
    && x.totalActivated <= total
    && y.totalActivated == total
    && y.ants == x.ants + (total - x.totalActivated)
    && y.activated == x.activated + (total - x.totalActivated)
    && y.sessions >= x.sessions
    && y.assets == x.assets
  }

  /** The highest balance one row reports for an address. */
  function Reported(row: Snapshot, a: Address): u64 {
    if row.address == a then row.ants else 0
  }

  lemma RowRaises(accounts: Accounts, row: Snapshot, a: Address)
    requires SyncRow(accounts, row).Success?
    ensures Raised(Get(accounts, a), Get(SyncRow(accounts, row).value, a),
        Max(Get(accounts, a).totalActivated, Reported(row, a)))
    ensures a in accounts ==> a in SyncRow(accounts, row).value
  {
  }

  lemma RaisedTwice(x: Account, y: Account, z: Account, r: u64, h: u64)
    requires Raised(x, y, Max(x.totalActivated, r)) && Raised(y, z, Max(y.totalActivated, h))
    ensures Raised(x, z, Max(x.totalActivated, Max(r, h)))
  {
  }

  lemma RowsSplit(accounts: Accounts, rows: seq<Snapshot>, a: Address)
    requires rows != [] && SyncRows(accounts, rows).Success?
    ensures SyncRow(accounts, rows[0]).Success?
    ensures SyncRows(accounts, rows) == SyncRows(SyncRow(accounts, rows[0]).value, rows[1..])
    ensures Highest(rows, a) == Max(Reported(rows[0], a), Highest(rows[1..], a))
  {
  }

  lemma {:induction false} RowsRaise(accounts: Accounts, rows: seq<Snapshot>, a: Address)
    requires SyncRows(accounts, rows).Success?
    ensures Raised(Get(accounts, a), Get(SyncRows(accounts, rows).value, a),
        Max(Get(accounts, a).totalActivated, Highest(rows, a)))
    ensures a in accounts ==> a in SyncRows(accounts, rows).value
    decreases rows
  {
    if rows != [] {
      RowsSplit(accounts, rows, a);
      var next := SyncRow(accounts, rows[0]).value;
      var end := SyncRows(next, rows[1..]).value;
      RowRaises(accounts, rows[0], a);
      RowsRaise(next, rows[1..], a);
      RaisedTwice(Get(accounts, a), Get(next, a), Get(end, a), Reported(rows[0], a), Highest(rows[1..], a));
    }
  }

  /** `y` is `x` after its watermark rose, but not above `limit`. */
  ghost predicate RaisedWithin(x: Account, y: Account, limit: u64) {
    Raised(x, y, y.totalActivated) && y.totalActivated <= Max(x.totalActivated, limit)
  }

  lemma RaisedWithinTwice(x: Account, y: Account, z: Account, end: Account, r: u64, h: u64)
    requires RaisedWithin(x, y, r) && RaisedWithin(y, z, h) && (end == y || end == z)
    ensures RaisedWithin(x, end, Max(r, h))
  {
  }

  lemma RowKeptRaises(accounts: Accounts, row: Snapshot, a: Address)
    requires Get(accounts, a).activated <= Get(accounts, a).ants
    ensures RaisedWithin(Get(accounts, a), Get(RowKept(accounts, row), a), Reported(row, a))
  {
  }

  lemma RowsKeptFirst(accounts: Accounts, rows: seq<Snapshot>, pending: nat, a: Address, tail: Account)
    returns (end: Account)
    requires rows != []
    requires tail == Get(RowsKept(RowKept(accounts, rows[0]), rows[1..], pending + RowDelta(accounts, rows[0])), a)
    ensures end == Get(RowsKept(accounts, rows, pending), a)
    ensures end == Get(RowKept(accounts, rows[0]), a) || end == tail
  {
    end := Get(RowsKept(accounts, rows, pending), a);
  }

  /** The row loop, finished or not, raises the watermark of a wallet and credits the rise. */
  lemma {:induction false} RowsKeptRaise(accounts: Accounts, rows: seq<Snapshot>, pending: nat, a: Address)
    returns (end: Account)
    requires Get(accounts, a).activated <= Get(accounts, a).ants
    ensures end == Get(RowsKept(accounts, rows, pending), a)
    ensures RaisedWithin(Get(accounts, a), end, Highest(rows, a))
    decreases rows
  {
    if rows == [] {
      end := Get(accounts, a);
    } else {
      var next := RowKept(accounts, rows[0]);
      RowKeptRaises(accounts, rows[0], a);
      var tail := RowsKeptRaise(next, rows[1..], pending + RowDelta(accounts, rows[0]), a);
      end := RowsKeptFirst(accounts, rows, pending, a, tail);
      RaisedWithinTwice(Get(accounts, a), Get(next, a), tail, end, Reported(rows[0], a), Highest(rows[1..], a));
    }
  }

  /** The same sessions and the same watermark; the activated remainder stays covered. */
  ghost predicate SameMark(x: Account, y: Account) {
    x.sessions == y.sessions && x.totalActivated == y.totalActivated &&
      (x.activated <= x.ants ==> y.activated <= y.ants)
  }

  lemma KeptKeepsMark(accounts: Accounts, es: seq<Entry>, a: Address)
    ensures SameMark(Get(accounts, a), Get(Kept(accounts, es), a))
  {
    var done := KeptIsPrefix(accounts, es);
    ApplyRecord(accounts, es[..done], a);
  }

  lemma BurnKeepsMark(accounts: Accounts, who: Address, amount: u64, validators: seq<Address>, a: Address)
    ensures SameMark(Get(accounts, a), Get(BurnKept(accounts, who, amount, validators), a))
  {
    if BurnKept(accounts, who, amount, validators) != accounts {
      var spent := accounts[who := Spend(accounts[who], amount + MIN_FEE_ANTS)];
      if validators == [] {
        KeptKeepsMark(spent, [Credit(FEE_RESERVE, MIN_FEE_ANTS)], a);
      } else {
        var per, rest := MIN_FEE_ANTS / |validators|, MIN_FEE_ANTS % |validators|;
        var shares := if per > 0 then MinerEntries(validators, per) else [];
        KeptKeepsMark(spent, shares, a);
        KeptConcat(spent, shares, []);
        KeptKeepsMark(Kept(spent, shares), [Credit(FEE_RESERVE, rest)], a);
      }
    }
  }

  lemma DexKeepsMark(d: Dex.Dex, op: Dex.Op, a: Address)
    requires Dex.Do(d, op).Success?
    ensures SameMark(Get(d.accounts, a), Get(Dex.Do(d, op).value.accounts, a))
  {
    match op
    case Create(p, s, x, t, fee) =>
    case Add(p, s, x, t) => Dex.AddedPool(d, p, s, x, t);
    case SwapIn(p, s, x, dir, minOut, h, deadline) =>
    case WrapAnet(p, x) =>
    case UnwrapWanet(p, x) =>
  }

  lemma ResidueKeepsMark(d: Dex.Dex, op: Dex.Op, a: Address)
    ensures SameMark(Get(d.accounts, a), Get(DexErrors.Residue(d, op), a))
  {
  }

  /** A clawback, finished or not, spares a wallet with enough sessions. */
  lemma ClawbackSpares(accounts: Accounts, rows: seq<Snapshot>, pending: u64, left: Accounts, a: Address)
    requires AfterSync(accounts, rows, pending, left).Some?
    requires Get(RowsKept(accounts, rows, pending), a).sessions >= MIN_SESSIONS_FOR_ANET
    ensures Get(AfterSync(accounts, rows, pending, left).value, a) == Get(RowsKept(accounts, rows, pending), a)
  {
    var credited := RowsKept(accounts, rows, pending);
    if RowsEnd(accounts, rows, pending) && !ClawbackEnds(credited, rows) {
      var todo, b :| StoppedAt(credited, rows, todo, b, left);
      assert a in credited && a !in todo ==> a in credited.Keys - todo;
      assert b != a && left[b := credited[b]].Keys == credited.Keys;
      if a in left {
        assert left[b := credited[b]][a] == left[a];
      }
    }
  }

  lemma SyncRaises(d: Dex.Dex, rows: seq<Snapshot>, pending: u64, left: Accounts, a: Address)
    requires After(d, SyncStep(rows, pending, left)).Some? && Get(d.accounts, a).sessions >= MIN_SESSIONS_FOR_ANET
    requires RowsEnd(d.accounts, rows, pending) || Get(d.accounts, a).activated <= Get(d.accounts, a).ants
    ensures
      var x, y := Get(d.accounts, a), Get(After(d, SyncStep(rows, pending, left)).value.accounts, a);
      && Raised(x, y, y.totalActivated)
      && y.totalActivated <= Max(x.totalActivated, Highest(rows, a))
      && (RowsEnd(d.accounts, rows, pending) ==> y.totalActivated == Max(x.totalActivated, Highest(rows, a)))
  {
    if RowsEnd(d.accounts, rows, pending) {
      RowsRaise(d.accounts, rows, a);
      RowsKeptAll(d.accounts, rows, pending);
    } else {
      var end := RowsKeptRaise(d.accounts, rows, pending, a);
    }
    ClawbackSpares(d.accounts, rows, pending, left, a);
  }

  /** Syncs, with blocks, funding, trades and burns in between, whatever these calls return. */
  ghost predicate Ordinary(d: Dex.Dex, chs: seq<Change>) {
    AfterAll(d, chs).Some? && forall i :: 0 <= i < |chs| ==> !chs[i].MigrateStep? && !chs[i].TopUpStep?
  }

  /** The row loop of every sync ends without an error. */
  ghost predicate AllRowsEnd(d: Dex.Dex, chs: seq<Change>)
    requires AfterAll(d, chs).Some?
    decreases chs
  {
    chs == [] ||
    (&& (chs[0].SyncStep? ==> RowsEnd(d.accounts, chs[0].rows, chs[0].pending))
     && AllRowsEnd(After(d, chs[0]).value, chs[1..]))
  }

  /** The highest balance any sync reports for an address. */
  function HighestEver(chs: seq<Change>, a: Address): u64 {
    if chs == [] then 0
    else Max(if chs[0].SyncStep? then Highest(chs[0].rows, a) else 0, HighestEver(chs[1..], a))
  }

  /** What the syncs of a run credit to an address in all. */
  ghost function SyncGain(d: Dex.Dex, chs: seq<Change>, a: Address): int
    decreases chs
  {
    if chs == [] || After(d, chs[0]).None? then 0
    else
      var next := After(d, chs[0]).value;
      SyncGain(next, chs[1..], a) + if chs[0].SyncStep? then Balance(next.accounts, a) - Balance(d.accounts, a) else 0
  }

  lemma OtherStepsKeepMark(d: Dex.Dex, ch: Change, a: Address)
    requires After(d, ch).Some? && !ch.SyncStep? && !ch.MigrateStep? && !ch.TopUpStep?
    ensures SameMark(Get(d.accounts, a), Get(After(d, ch).value.accounts, a))
  {
    match ch
    case ApplyStep(b) => KeptKeepsMark(d.accounts, BlockEntries(b), a);
    case FundStep(_, _) =>
    case DexStep(op, pools) =>
      ResidueKeepsMark(d, op, a);
      if Dex.Do(d, op).Success? {
        DexKeepsMark(d, op, a);
      }
    case BurnStep(who, amount, validators) => BurnKeepsMark(d.accounts, who, amount, validators, a);
  }

  /** Main result: across any series of syncs, with blocks, funding, trades and burns in between and
      whatever these calls return, a wallet with enough sessions is credited by the syncs in
      total exactly the rise of its watermark, which never exceeds its highest snapshot; repeated
      and duplicate rows credit nothing. When every row loop ends, the watermark does reach the
      highest snapshot. */
  lemma {:induction false} SyncsCreditHighWatermark(d: Dex.Dex, chs: seq<Change>, a: Address)
    requires Ordinary(d, chs) && Get(d.accounts, a).sessions >= MIN_SESSIONS_FOR_ANET
    requires AllRowsEnd(d, chs) || Get(d.accounts, a).activated <= Get(d.accounts, a).ants
    ensures
      var before, after := Get(d.accounts, a), Get(AfterAll(d, chs).value.accounts, a);
      && SyncGain(d, chs, a) == after.totalActivated - before.totalActivated
      && before.totalActivated <= after.totalActivated <= Max(before.totalActivated, HighestEver(chs, a))
      && (AllRowsEnd(d, chs) ==> after.totalActivated == Max(before.totalActivated, HighestEver(chs, a)))
    decreases chs
  {
    if chs != [] {
      var next := After(d, chs[0]).value;
      if chs[0].SyncStep? {
        SyncRaises(d, chs[0].rows, chs[0].pending, chs[0].left, a);
      } else {
        OtherStepsKeepMark(d, chs[0], a);
      }
      assert forall i :: 0 <= i < |chs[1..]| ==> chs[1..][i] == chs[i + 1];
      SyncsCreditHighWatermark(next, chs[1..], a);
    }
  }
}
