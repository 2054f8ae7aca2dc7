/** A wallet migration moves an account's asset units (src/state.rs:1232-1304). The token registry
    lists the same units once more (src/state.rs:1934-2132) and is not told. */
module MigratedTokens {
  import opened Wrappers
  import opened Anrc20
  import opened Ledger
  import ActivatedSupply
  import Dex

  function Moved(m: Market, legacy: Address, secp: Address): Market
    requires ActivatedSupply.Migrate(m.dex.accounts, legacy, secp).Some?
  {
    m.(dex := m.dex.(accounts := ActivatedSupply.Migrate(m.dex.accounts, legacy, secp).value))
  }

  lemma MovedAssets(m: Market, legacy: Address, secp: Address, s: string, a: Address)
    requires ActivatedSupply.Migrate(m.dex.accounts, legacy, secp).Some?
    ensures Dex.Asset(Get(Moved(m, legacy, secp).dex.accounts, a), s) ==
      if a == legacy then 0
      else Dex.Asset(Get(m.dex.accounts, a), s) + if a == secp then Dex.Asset(m.dex.accounts[legacy], s) else 0
  {
    var x, y := Get(m.dex.accounts, secp), m.dex.accounts[legacy];
    assert ActivatedSupply.Merge(x, y).assets.Keys == x.assets.Keys + y.assets.Keys;
  }

  /** Main result: a migration keeps the two ledgers of a token equal if and only if the legacy
      account held none of it. */
  lemma MigrationMirrorsIff(m: Market, legacy: Address, secp: Address, s: string)
    requires Mirrored(m, s) && ActivatedSupply.Migrate(m.dex.accounts, legacy, secp).Some?
    ensures Mirrored(Moved(m, legacy, secp), s) <==> Dex.Asset(m.dex.accounts[legacy], s) == 0
  {
    var n := Moved(m, legacy, secp);
    forall a ensures Dex.Asset(Get(m.dex.accounts, a), s) == Listed(m, s, a) && Listed(n, s, a) == Listed(m, s, a) {
    }
    if Dex.Asset(m.dex.accounts[legacy], s) == 0 {
      forall a ensures Dex.Asset(Get(n.dex.accounts, a), s) == Listed(n, s, a) {
        MovedAssets(m, legacy, secp, s, a);
      }
    } else {
      MovedAssets(m, legacy, secp, s, legacy);
      assert Dex.Asset(Get(n.dex.accounts, legacy), s) != Listed(n, s, legacy);
    }
  }

  /** Main result: the moved units are stranded. From equal ledgers, the new address can transfer
      exactly the amounts it could before the migration, as far as its recipient has room, however
      many units it owns now; the legacy address can transfer none. */
  lemma MigratedUnitsDoNotTransfer(m: Market, legacy: Address, secp: Address, to: Address, s: string, amount: u64)
    requires RegistryOk(m) && Mirrored(m, s) && ActivatedSupply.Migrate(m.dex.accounts, legacy, secp).Some?
    requires TransferReaches(secp, to, s, amount) && s in m.registry
    ensures
      var n := Moved(m, legacy, secp);
      && Transfer(n, legacy, to, s, amount).Failure?
      && (Transfer(n, secp, to, s, amount).Success? <==>
          && amount <= Dex.Asset(Get(m.dex.accounts, secp), s)
          && Dex.Asset(Get(n.dex.accounts, to), s) + amount <= U64_MAX)
      && (var owned := Dex.Asset(Get(n.dex.accounts, secp), s);
          Dex.Asset(m.dex.accounts[legacy], s) > 0 ==> Transfer(n, secp, to, s, owned).Failure?)
  {
    var n := Moved(m, legacy, secp);
    var owned := Dex.Asset(Get(n.dex.accounts, secp), s);
    MovedAssets(m, legacy, secp, s, legacy);
    MovedAssets(m, legacy, secp, s, secp);
    assert Dex.Asset(Get(m.dex.accounts, secp), s) == Listed(m, s, secp);
    TransferSucceedsIff(n, secp, to, s, amount);
    TransferSucceedsIff(n, secp, to, s, owned);
    TransferSucceedsIff(n, legacy, to, s, amount);
  }
}
