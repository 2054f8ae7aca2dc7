/** The loops inside the node's operations (src/state.rs:633-705, 866-940, 1232-1304,
    2210-2272, 1396-1538, src/block.rs:98-140), on values. */
module NodeLoops {
  import opened Wrappers
  import opened Ledger
  import opened Mempool
  import opened Ordering
  import opened Sums
  import opened Activation
  import ActivatedSupply
  import Dex
  import DexMath
  import Validators

  predicate AtMost(x: u64, y: u64) {
    x <= y
  }

  lemma AtMostIsOrder()
    ensures TotalPreorder(AtMost)
  {
  }

  lemma QueuedGrows(txs: seq<Tx>, i: nat, a: Address, n: u64)
    requires i < |txs|
    ensures NonceQueued(txs[..i + 1], a, n) <==> NonceQueued(txs[..i], a, n) || (txs[i].from == a && txs[i].nonce == n)
  {
    assert txs[..i + 1] == txs[..i] + [txs[i]];
    if NonceQueued(txs[..i], a, n) {
      var k :| 0 <= k < i && txs[..i][k].from == a && txs[..i][k].nonce == n;
      assert txs[..i + 1][k] == txs[..i][k];
    }
    if txs[i].from == a && txs[i].nonce == n {
      assert txs[..i + 1][i] == txs[i];
    }
  }

  /** The nonces one sender has in the queue. */
  method CollectNonces(mempool: seq<Tx>, from: Address) returns (nonces: seq<u64>)
    ensures forall n: u64 :: n in nonces <==> NonceQueued(mempool, from, n)
  {
    nonces := [];
    for i := 0 to |mempool|
      invariant forall n: u64 :: n in nonces <==> NonceQueued(mempool[..i], from, n)
    {
      forall n: u64 {
        QueuedGrows(mempool, i, from, n);
      }
      if mempool[i].from == from {
        nonces := nonces + [mempool[i].nonce];
      }
    }
    assert mempool[..|mempool|] == mempool;
  }

  /** The gap loop over a sorted list. Some nonce above the committed one is free, so the
      checked additions cannot fail. */
  method ExpectedNonce(committed: u64, pending: seq<u64>, ghost free: u64) returns (expected: u64)
    requires SortedBy(pending, AtMost)
    requires committed < free && free !in pending
    ensures committed < expected && expected !in pending
    ensures forall n: u64 :: committed < n < expected ==> n in pending
  {
    expected := committed + 1;
    for i := 0 to |pending|
      invariant committed < expected
      invariant forall k :: 0 <= k < i ==> pending[k] < expected
      invariant forall n: u64 :: committed < n < expected ==> n in pending
    {
      if pending[i] == expected {
        assert expected < free;
        expected := expected + 1;
      } else if pending[i] > expected {
        assert forall k :: i <= k < |pending| ==> AtMost(pending[i], pending[k]);
        break;
      }
    }
  }

  lemma LeastFreeIsUnique(txs: seq<Tx>, a: Address, committed: u64, m: u64, n: u64)
    requires LeastFreeNonce(txs, a, committed, m) && LeastFreeNonce(txs, a, committed, n)
    ensures m == n
  {
  }

  /** The nonce a sender has to use next. */
  method NextNonce(mempool: seq<Tx>, from: Address, committed: u64, nonces: seq<u64>, ghost free: u64)
    returns (expected: u64)
    requires forall n: u64 :: n in nonces <==> NonceQueued(mempool, from, n)
    requires committed < free && !NonceQueued(mempool, from, free)
    ensures LeastFreeNonce(mempool, from, committed, expected)
  {
    var sorted := Sort(nonces, AtMost);
    AtMostIsOrder();
    SortSorts(nonces, AtMost);
    forall n: u64 ensures n in sorted <==> n in nonces {
      assert n in multiset(sorted) <==> n in multiset(nonces);
    }
    expected := ExpectedNonce(committed, sorted, free);
  }

  lemma PendingGrows(txs: seq<Tx>, i: nat, a: Address)
    requires i < |txs|
    ensures Pending(txs[..i + 1], a) == Pending(txs[..i], a) + DebitFrom(a)(txs[i])
    ensures Pending(txs[..i + 1], a) <= Pending(txs, a)
  {
    assert txs[..i + 1] == txs[..i] + [txs[i]] && txs == txs[..i + 1] + txs[i + 1..];
    SeqSumConcat(txs[..i], [txs[i]], DebitFrom(a));
    assert [txs[i]][1..] == [];
    assert SeqSum([txs[i]], DebitFrom(a)) == DebitFrom(a)(txs[i]) + SeqSum([txs[i]][1..], DebitFrom(a));
    SeqSumConcat(txs[..i + 1], txs[i + 1..], DebitFrom(a));
  }

  /** What the queue already takes from a sender, in checked arithmetic. */
  method PendingOutgoing(mempool: seq<Tx>, from: Address) returns (sum: Option<u64>)
    ensures sum == if Pending(mempool, from) > U64_MAX then None else Some(Pending(mempool, from))
  {
    var total: u64 := 0;
    for i := 0 to |mempool|
      invariant total == Pending(mempool[..i], from)
    {
      PendingGrows(mempool, i, from);
      if mempool[i].from == from {
        if total + mempool[i].amount + mempool[i].fee > U64_MAX {
          return None;
        }
        total := total + mempool[i].amount + mempool[i].fee;
      }
    }
    assert mempool[..|mempool|] == mempool;
    sum := Some(total);
  }

  predicate IdQueued(mempool: seq<Tx>, id: string) {
    exists i :: 0 <= i < |mempool| && mempool[i].id == id
  }

  method HasId(mempool: seq<Tx>, id: string) returns (found: bool)
    ensures found <==> IdQueued(mempool, id)
  {
    for i := 0 to |mempool|
      invariant forall k :: 0 <= k < i ==> mempool[k].id != id
    {
      if mempool[i].id == id {
        return true;
      }
    }
    found := false;
  }

  predicate AllValid(txs: seq<Tx>) {
    forall i :: 0 <= i < |txs| ==> Valid(txs[i])
  }

  method ValidateAll(txs: seq<Tx>) returns (ok: bool)
    ensures ok <==> AllValid(txs)
  {
    for i := 0 to |txs|
      invariant forall k :: 0 <= k < i ==> Valid(txs[k])
    {
      if !Valid(txs[i]) {
        return false;
      }
    }
    ok := true;
  }

  method SumFees(txs: seq<Tx>) returns (fees: nat)
    ensures fees == SeqSum(txs, Fee())
  {
    fees := 0;
    for i := 0 to |txs|
      invariant SeqSum(txs, Fee()) == fees + SeqSum(txs[i..], Fee())
    {
      assert txs[i..][1..] == txs[i + 1..];
      fees := fees + txs[i].fee;
    }
  }

  /** `Block::new`. */
  method BuildBlock(hashOf: Body -> string, height: u64, start: int, end: int, previous: string, txs: seq<Tx>,
                    miners: seq<Address>)
    returns (r: Result<Block, NodeError>)
    ensures r == NewBlock(hashOf, height, start, end, previous, txs, miners)
  {
    if end <= start {
      return Failure(BadWindow);
    }
    var ok := ValidateAll(txs);
    if !ok {
      return Failure(InvalidTransaction);
    }
    var fees := SumFees(txs);
    if fees > U64_MAX {
      return Failure(FeeOverflow);
    }
    var body := Body(height, start, end, previous, txs, fees, miners, if |miners| == 0 then 0 else fees / |miners|);
    return Success(Block(body, hashOf(body)));
  }

  method CommitAll(nonces: map<Address, u64>, txs: seq<Tx>) returns (r: map<Address, u64>)
    ensures r == CommitNonces(nonces, txs)
  {
    r := nonces;
    for i := 0 to |txs|
      invariant r == CommitNonces(nonces, txs[..i])
    {
      assert txs[..i + 1][..i] == txs[..i];
      r := r[txs[i].from := txs[i].nonce];
    }
    assert txs[..|txs|] == txs;
  }

  /** The account map in some order, as iterating over a hash map yields it. */
  method Enumerate(accounts: Accounts) returns (order: seq<Address>)
    ensures Validators.Enumerates(order, accounts)
  {
    order := [];
    var todo := accounts.Keys;
    while todo != {}
      invariant todo <= accounts.Keys
      invariant forall a :: a in accounts <==> a in order || a in todo
      invariant forall a :: a in order ==> a !in todo
      invariant forall i, j :: 0 <= i < j < |order| ==> order[i] != order[j]
      decreases todo
    {
      var a :| a in todo;
      order := order + [a];
      todo := todo - {a};
    }
  }

  /** One turn of the row loop. */
  lemma FirstRow(accounts: Accounts, rows: seq<Snapshot>, pending: nat)
    requires rows != []
    ensures
      var row, next, delta := rows[0], RowKept(accounts, rows[0]), RowDelta(accounts, rows[0]);
      if SyncRow(accounts, row).Failure? then
        SyncRows(accounts, rows).Failure? && RowsKept(accounts, rows, pending) == next
      else
        && SyncRows(accounts, rows) == SyncRows(next, rows[1..])
        && (Raises(accounts, rows) <==>
              row.sessions > Get(accounts, row.address).sessions || delta > 0 || Raises(next, rows[1..]))
        && Credited(accounts, rows) == delta + Credited(next, rows[1..])
        && RowsKept(accounts, rows, pending) ==
           if pending + delta > U64_MAX then next else RowsKept(next, rows[1..], pending + delta)
  {
  }

  lemma RowListed(rows: seq<Snapshot>, i: nat, a: Address)
    requires i < |rows|
    ensures Listed(rows[..i + 1], a) <==> Listed(rows[..i], a) || rows[i].address == a
  {
    assert rows[..i + 1] == rows[..i] + [rows[i]];
    if Listed(rows[..i], a) {
      var k :| 0 <= k < i && rows[..i][k].address == a;
      assert rows[..i + 1][k].address == a;
    }
    if rows[i].address == a {
      assert rows[..i + 1][i].address == a;
    }
  }

  method ListedAddresses(rows: seq<Snapshot>) returns (active: set<Address>)
    ensures forall a :: a in active <==> Listed(rows, a)
  {
    active := {};
    for i := 0 to |rows|
      invariant forall a :: a in active <==> Listed(rows[..i], a)
    {
      forall a {
        RowListed(rows, i, a);
      }
      active := active + {rows[i].address};
    }
    assert rows[..|rows|] == rows;
  }

  lemma ClawbackIsPointwise(before: Accounts, rows: seq<Snapshot>, after: Accounts)
    requires ClawedExcept(before, after, rows, {})
    ensures Clawback(before, rows) == Success(after)
  {
    assert before.Keys - {} == before.Keys;
    assert Clawback(before, rows).Success?;
    var r := Clawback(before, rows).value;
    forall a | a in before ensures r[a] == after[a] {
      assert a in before.Keys - {};
    }
    assert r == after;
  }

  predicate Clawable(entry: Account, listed: bool) {
    entry.sessions < MIN_SESSIONS_FOR_ANET && entry.activated > 0 && !listed
  }

  /** How the loop leaves one account, and whether it goes on. */
  ghost predicate Cleared(entry: Account, listed: bool, total: u64, ok: bool, z: Account, grown: u64) {
    if !Clawable(entry, listed) then ok && z == entry && grown == total
    else if entry.ants < entry.activated then !ok && z == entry
    else
      var half := entry.(ants := entry.ants - entry.activated);
      if total + entry.activated > U64_MAX then !ok && z == half
      else ok && z == half.(activated := 0, totalActivated := 0) && grown == total + entry.activated
  }

  /** One account of the clawback loop: unlisted wallets below the threshold lose what is
      activated, step by step. */
  method ClearAccount(entry: Account, listed: bool, total: u64) returns (ok: bool, z: Account, grown: u64)
    ensures Cleared(entry, listed, total, ok, z, grown)
  {
    ok, z, grown := true, entry, total;
    if Clawable(entry, listed) {
      if entry.ants < entry.activated {
        return false, z, grown;
      }
      z := z.(ants := entry.ants - entry.activated);
      if total + entry.activated > U64_MAX {
        return false, z, grown;
      }
      grown := total + entry.activated;
      z := z.(activated := 0, totalActivated := 0);
    }
  }

  lemma ClawbackGoesOn(before: Accounts, now: Accounts, rows: seq<Snapshot>, todo: set<Address>, a: Address,
                       total: u64, z: Account, grown: u64)
    requires ClawedExcept(before, now, rows, todo) && a in todo && total == Sum(RemovedBut(before, rows, todo))
    requires Cleared(now[a], Listed(rows, a), total, true, z, grown)
    ensures ClawedExcept(before, now[a := z], rows, todo - {a})
    ensures grown == Sum(RemovedBut(before, rows, todo - {a}))
  {
    RemovedOneMore(before, rows, todo, a);
    ClawedOneMore(before, now, rows, todo, a);
  }

  lemma ClawbackStops(before: Accounts, now: Accounts, rows: seq<Snapshot>, todo: set<Address>, a: Address,
                      total: u64, z: Account, grown: u64)
    requires ClawedExcept(before, now, rows, todo) && a in todo && total == Sum(RemovedBut(before, rows, todo))
    requires Cleared(now[a], Listed(rows, a), total, false, z, grown)
    ensures ClawbackLeft(before, rows, now[a := z])
    ensures Clawback(before, rows).Failure? || Sum(Removals(before, rows)) > U64_MAX
  {
    RemovedOneMore(before, rows, todo, a);
    StopsAt(before, now, rows, todo, a, total, z, grown);
    if before[a].ants < before[a].activated {
      assert ClawedBack(before, rows, a);
    }
  }

  lemma StopsAt(before: Accounts, now: Accounts, rows: seq<Snapshot>, todo: set<Address>, a: Address, total: u64,
                z: Account, grown: u64)
    requires ClawedExcept(before, now, rows, todo) && a in todo && total == Sum(RemovedBut(before, rows, todo))
    requires Cleared(now[a], Listed(rows, a), total, false, z, grown)
    ensures StoppedAt(before, rows, todo, a, now[a := z])
  {
    assert now[a := z][a := before[a]] == now;
  }

  lemma ClawedOneMore(before: Accounts, now: Accounts, rows: seq<Snapshot>, todo: set<Address>, a: Address)
    requires ClawedExcept(before, now, rows, todo) && a in todo
    requires ClawedBack(before, rows, a) ==> before[a].activated <= before[a].ants
    ensures ClawedExcept(before, now[a := AfterClawback(before, rows, a)], rows, todo - {a})
  {
  }

  lemma RemovedOneMore(accounts: Accounts, rows: seq<Snapshot>, todo: set<Address>, a: Address)
    requires a in todo && a in accounts
    ensures Sum(RemovedBut(accounts, rows, todo - {a})) ==
            Sum(RemovedBut(accounts, rows, todo)) + if ClawedBack(accounts, rows, a) then accounts[a].activated else 0
    ensures Sum(RemovedBut(accounts, rows, todo - {a})) <= Sum(Removals(accounts, rows))
  {
    var m, n := RemovedBut(accounts, rows, todo), RemovedBut(accounts, rows, todo - {a});
    if ClawedBack(accounts, rows, a) {
      SumUpdate(m, a, accounts[a].activated);
      assert n == m[a := accounts[a].activated];
    } else {
      assert n == m;
    }
    SumOfPart(n, Removals(accounts, rows));
  }

  lemma RemovedEnds(accounts: Accounts, rows: seq<Snapshot>)
    ensures Sum(RemovedBut(accounts, rows, accounts.Keys)) == 0
    ensures RemovedBut(accounts, rows, {}) == Removals(accounts, rows)
  {
    assert RemovedBut(accounts, rows, accounts.Keys) == map[];
  }

  /** The asset loop of `migrate_legacy_to_secp`. */
  method MergeAssets(x: Account, y: Account) returns (ok: bool, assets: map<string, u64>)
    ensures ok <==> forall s :: s in x.assets.Keys + y.assets.Keys ==> ActivatedSupply.MergedAsset(x, y, s) <= U64_MAX
    ensures ActivatedSupply.AssetsPartly(x, y, assets)
    ensures ok ==>
              && assets.Keys == x.assets.Keys + y.assets.Keys
              && forall s :: s in assets ==> assets[s] == ActivatedSupply.MergedAsset(x, y, s)
  {
    assets := x.assets;
    var todo := y.assets.Keys;
    while todo != {}
      invariant todo <= y.assets.Keys
      invariant assets.Keys == x.assets.Keys + (y.assets.Keys - todo)
      invariant forall s :: s in assets ==> assets[s] == if s in todo then x.assets[s]
          else ActivatedSupply.MergedAsset(x, y, s)
      decreases todo
    {
      var s :| s in todo;
      var held := if s in assets then assets[s] else 0;
      if held + y.assets[s] > U64_MAX {
        assert s in x.assets.Keys + y.assets.Keys && ActivatedSupply.MergedAsset(x, y, s) > U64_MAX;
        return false, assets;
      }
      assets := assets[s := held + y.assets[s]];
      todo := todo - {s};
    }
    ok := true;
  }

  /** The receiving half of `migrate_legacy_to_secp`, one field after the other. */
  method MergeInto(x: Account, y: Account) returns (ok: bool, z: Account)
    ensures ok <==> ActivatedSupply.MergeFits(x, y)
    ensures if ok then z == ActivatedSupply.Merge(x, y) else ActivatedSupply.PartlyMerged(x, y, z)
  {
    z := x;
    if x.ants + y.ants > U64_MAX {
      return false, z;
    }
    z := z.(ants := x.ants + y.ants);
    if x.activated + y.activated > U64_MAX {
      return false, z;
    }
    z := z.(activated := x.activated + y.activated);
    if x.totalActivated + y.totalActivated > U64_MAX {
      return false, z;
    }
    z := z.(totalActivated := x.totalActivated + y.totalActivated);
    if x.sessions + y.sessions > U64_MAX {
      return false, z;
    }
    z := z.(sessions := x.sessions + y.sessions);
    var assets;
    ok, assets := MergeAssets(x, y);
    z := z.(assets := assets);
    assert ok ==> assets == ActivatedSupply.Merge(x, y).assets;
  }

  /** `initial_lp_units` for two 64-bit deposits, whose product the root covers. */
  method InitialLpUnits(anet: u64, token: u64) returns (lp: nat)
    requires anet > 0 && token > 0
    ensures DexMath.InitialLp(anet, token) == Success(lp)
  {
    DexMath.InitialLpBounds(anet, token);
    var product := anet * token;
    var root := DexMath.IntegerSqrt(product as DexMath.u128);
    DexMath.FloorSqrtUnique(product, root as nat, DexMath.Root(product));
    lp := root as nat;
  }

  /** The ratio check and the units a deposit mints. */
  method MintedUnits(p: Dex.Pool, anet: u64, token: u64) returns (r: Result<nat, Dex.DexError>)
    ensures r == Dex.MintedLp(p, anet, token)
  {
    if p.anet == 0 {
      return Failure(Dex.EmptyReserve);
    }
    if anet * p.token > DexMath.U128_MAX {
      return Failure(Dex.ReserveOverflow);
    }
    var required := anet * p.token / p.anet;
    var drift := if required < token then token - required else required - token;
    if drift > 1 {
      return Failure(Dex.RatioMismatch);
    }
    if anet * p.totalLp > DexMath.U128_MAX {
      return Failure(Dex.ReserveOverflow);
    }
    var minted := anet * p.totalLp / p.anet;
    if minted == 0 {
      return Failure(Dex.ContributionTooSmall);
    }
    return Success(minted);
  }
}
