/** Restarting from a snapshot (src/state.rs:2291-2313, 314-334). A sync writes each account's
    activated remainder to the genesis file; the next start takes that for its balance and
    replays the whole history over it, so what was spent before the snapshot is spent again. */
module Snapshot {
  import opened Wrappers
  import opened Ledger
  import opened Replay
  import opened Ordering
  import opened Solvency
  import Activation
  import Boot
  import NodeLoops

  /** The row `persist_genesis_snapshot` writes for one account. */
  function SnapshotRow(a: Address, acct: Account): Boot.GenesisRow {
    Boot.GenesisRow(a, acct.activated, acct.totalActivated, acct.sessions)
  }

  /** The accounts the next start builds from the written rows. */
  function SnapshotAccounts(live: Accounts): Accounts {
    map a | a in live && Written(live, a) :: Boot.GenesisAccount(SnapshotRow(a, live[a]))
  }

  predicate Written(live: Accounts, a: Address) {
    a in live && (live[a].activated > 0 || live[a].sessions > 0)
  }

  /** What the next start makes of one account. */
  lemma SnapshotAccountIs(live: Accounts, a: Address)
    ensures a in SnapshotAccounts(live) <==> a in live && (live[a].activated > 0 || live[a].sessions > 0)
    ensures a in SnapshotAccounts(live) ==>
              var was := live[a];
              SnapshotAccounts(live)[a] == Account(was.activated, was.activated,
                if was.totalActivated < was.activated then was.activated else was.totalActivated, was.sessions, map[])
  {
  }

  predicate AddressUpTo(x: Boot.GenesisRow, y: Boot.GenesisRow) {
    LexLe(x.address, y.address)
  }

  lemma AddressOrder()
    ensures TotalPreorder(AddressUpTo)
  {
    forall x, y ensures AddressUpTo(x, y) || AddressUpTo(y, x) {
      LexTotal(x.address, y.address);
    }
    forall x, y, z | AddressUpTo(x, y) && AddressUpTo(y, z) ensures AddressUpTo(x, z) {
      LexTransitive(x.address, y.address, z.address);
    }
  }

  /** The rows are those of the written accounts. */
  ghost predicate RowsOf(rows: seq<Boot.GenesisRow>, live: Accounts) {
    forall row :: row in rows <==> Written(live, row.address) && row == SnapshotRow(row.address, live[row.address])
  }

  lemma {:induction false} AccountsFromRows(rows: seq<Boot.GenesisRow>, live: Accounts)
    requires forall row :: row in rows ==> row.address in live && row == SnapshotRow(row.address, live[row.address])
    ensures forall a :: a in Boot.GenesisAccounts(rows) <==> exists row :: row in rows && row.address == a
    ensures forall a :: a in Boot.GenesisAccounts(rows) ==>
                          a in live && Boot.GenesisAccounts(rows)[a] == Boot.GenesisAccount(SnapshotRow(a, live[a]))
  {
    if rows != [] {
      var before, last := rows[..|rows| - 1], rows[|rows| - 1];
      assert rows == before + [last];
      AccountsFromRows(before, live);
      forall a ensures a in Boot.GenesisAccounts(rows) <==> exists row :: row in rows && row.address == a {
        if a in Boot.GenesisAccounts(before) {
          var row :| row in before && row.address == a;
          assert row in rows;
        }
        assert last in rows;
      }
    }
  }

  /** Start-up reads back, from the rows in any order, the accounts of the snapshot. */
  lemma RowsGiveSnapshot(rows: seq<Boot.GenesisRow>, live: Accounts)
    requires RowsOf(rows, live)
    ensures Boot.GenesisAccounts(rows) == SnapshotAccounts(live)
  {
    AccountsFromRows(rows, live);
    forall a ensures a in Boot.GenesisAccounts(rows) <==> a in SnapshotAccounts(live) {
      if a in SnapshotAccounts(live) {
        assert SnapshotRow(a, live[a]) in rows;
      }
    }
  }

  /** `persist_genesis_snapshot`: filter, convert, sort by address. */
  method PersistGenesisSnapshot(live: Accounts) returns (rows: seq<Boot.GenesisRow>)
    ensures SortedBy(rows, AddressUpTo)
    ensures Boot.GenesisAccounts(rows) == SnapshotAccounts(live)
  {
    var order := NodeLoops.Enumerate(live);
    var found: seq<Boot.GenesisRow> := [];
    for i := 0 to |order|
      invariant forall row :: row in found <==>
                                row.address in order[..i] && Written(live, row.address) &&
                                  row == SnapshotRow(row.address, live[row.address])
    {
      assert order[..i + 1] == order[..i] + [order[i]];
      var acct := live[order[i]];
      if acct.activated > 0 || acct.sessions > 0 {
        found := found + [SnapshotRow(order[i], acct)];
      }
    }
    assert order[..|order|] == order;
    rows := Sort(found, AddressUpTo);
    AddressOrder();
    SortSorts(found, AddressUpTo);
    forall row ensures row in rows <==> row in found {
      assert row in multiset(rows) <==> row in multiset(found);
    }
    RowsGiveSnapshot(rows, live);
  }

  /** Every balance of a genesis is activated. */
  ghost predicate GenesisLike(g: Accounts) {
    forall a :: a in g ==> g[a].activated == g[a].ants
  }

  function Min(x: nat, y: nat): nat {
    if x < y then x else y
  }

  lemma LiveRecord(g: Accounts, es: seq<Entry>, a: Address)
    requires Apply(g, es).Success? && GenesisLike(g)
    ensures
      var live := Apply(g, es).value;
      && Balance(live, a) == Balance(g, a) + Credits(es, a) - Debits(es, a)
      && Get(live, a).activated + Min(Balance(g, a), Debits(es, a)) == Balance(g, a)
  {
    ApplyRecord(g, es, a);
  }

  /** Activation credits and clawbacks move balance and activated remainder alike. */
  ghost predicate SameUnactivated(live: Accounts, now: Accounts) {
    forall a :: Balance(now, a) - Get(now, a).activated == Balance(live, a) - Get(live, a).activated
  }

  lemma RowKeepsUnactivated(accounts: Accounts, row: Activation.Snapshot)
    requires Activation.SyncRow(accounts, row).Success?
    ensures SameUnactivated(accounts, Activation.SyncRow(accounts, row).value)
  {
  }

  lemma {:induction false} RowsKeepUnactivated(accounts: Accounts, rows: seq<Activation.Snapshot>)
    requires Activation.SyncRows(accounts, rows).Success?
    ensures SameUnactivated(accounts, Activation.SyncRows(accounts, rows).value)
    decreases rows
  {
    if rows != [] {
      var next := Activation.SyncRow(accounts, rows[0]).value;
      RowKeepsUnactivated(accounts, rows[0]);
      RowsKeepUnactivated(next, rows[1..]);
      forall a ensures Balance(next, a) - Get(next, a).activated == Balance(accounts, a) - Get(accounts, a).activated {
      }
    }
  }

  lemma SyncKeepsUnactivated(accounts: Accounts, rows: seq<Activation.Snapshot>)
    requires Activation.Sync(accounts, rows).Success?
    ensures SameUnactivated(accounts, Activation.Sync(accounts, rows).value)
  {
    var credited, now := Activation.SyncRows(accounts, rows).value, Activation.Sync(accounts, rows).value;
    RowsKeepUnactivated(accounts, rows);
    forall a ensures Balance(now, a) - Get(now, a).activated == Balance(accounts, a) - Get(accounts, a).activated {
      assert Balance(credited, a) - Get(credited, a).activated == Balance(accounts, a) - Get(accounts, a).activated;
    }
  }

  /** The shortfall of a restart with `kept`, for a balance that had `high` at first. */
  lemma KeptShortfall(high: nat, kept: nat, es: seq<Entry>, a: Address)
    requires Low(high, es, a) >= 0
    ensures
      && Low(kept, es, a) == Low(high, es, a) + kept - high
      && kept - Debits(es, a) <= Low(kept, es, a) <= kept
      && (Debits(es, a) == 0 ==> Shortfall(kept, es, a) == 0)
  {
    LowShifts(high, es, a, kept - high);
    LowShifts(kept, es, a, 0);
    LowWithinDebits(kept, es, a);
  }

  /** A restart from a snapshot of `now` falls short, at every address, of the live balance by
      the genesis money spent, less the shortfall the reconciliation makes up. */
  lemma ReloadOf(g: Accounts, es: seq<Entry>, now: Accounts, a: Address)
    requires PositiveDebits(es) && GenesisLike(g) && Apply(g, es).Success?
    requires SameUnactivated(Apply(g, es).value, now) && Bounded(SnapshotAccounts(now), es)
    ensures
      var replayed := ReplayEntries(SnapshotAccounts(now), es);
      var kept, spent := Get(now, a).activated, Min(Balance(g, a), Debits(es, a));
      && replayed.Success?
      && Balance(replayed.value, a) + spent == Balance(now, a) + Shortfall(kept, es, a)
      && Shortfall(kept, es, a) <= spent
      && (Shortfall(kept, es, a) == spent <==>
          Debits(es, a) == 0 || Balance(g, a) == 0 ||
            Low(Balance(g, a), es, a) + kept == Get(Apply(g, es).value, a).activated)
  {
    var kept, live := Get(now, a).activated, Apply(g, es).value;
    ReplayedBalance(SnapshotAccounts(now), es, a);
    LiveRecord(g, es, a);
    AppliedStaysAfloat(g, es, a);
    KeptShortfall(Balance(g, a), kept, es, a);
    assert Balance(now, a) - kept == Balance(live, a) - Get(live, a).activated;
  }

  lemma SnapshotStaysBounded(g: Accounts, es: seq<Entry>)
    requires Apply(g, es).Success? && GenesisLike(g) && Bounded(g, es)
    ensures Bounded(SnapshotAccounts(Apply(g, es).value), es)
  {
    var snap := SnapshotAccounts(Apply(g, es).value);
    forall a ensures Balance(snap, a) + Debits(es, a) + Credits(es, a) <= U64_MAX {
      LiveRecord(g, es, a);
      assert Balance(g, a) + Debits(es, a) + Credits(es, a) <= U64_MAX;
    }
  }

  /** Main result: a restart from a snapshot taken after a history of a genuine genesis succeeds
      and no address gains by it. An address keeps its balance if and only if it never spent, or
      its balance was once exactly zero. */
  lemma SnapshotReload(g: Accounts, es: seq<Entry>, a: Address)
    requires PositiveDebits(es) && Bounded(g, es) && GenesisLike(g) && Apply(g, es).Success?
    ensures
      var live := Apply(g, es).value;
      var replayed := ReplayEntries(SnapshotAccounts(live), es);
      && replayed.Success?
      && Balance(replayed.value, a) <= Balance(live, a)
      && (Balance(replayed.value, a) == Balance(live, a) <==> Debits(es, a) == 0 || Low(Balance(g, a), es, a) == 0)
  {
    SnapshotStaysBounded(g, es);
    ReloadOf(g, es, Apply(g, es).value, a);
    AppliedStaysAfloat(g, es, a);
    LowShifts(Balance(g, a), es, a, 0);
  }

  /** Main result: the same restart when the sync that wrote the snapshot credited or clawed back
      first. No address gains; a spender with genesis money keeps its balance if and only if the
      lowest point of its history equals what the sync clawed back from it. So a sync that
      credits a spender makes it lose even if it was once at zero. */
  lemma SnapshotAfterSync(g: Accounts, es: seq<Entry>, rows: seq<Activation.Snapshot>, a: Address)
    requires PositiveDebits(es) && GenesisLike(g) && Apply(g, es).Success?
    requires Activation.Sync(Apply(g, es).value, rows).Success?
    requires Bounded(SnapshotAccounts(Activation.Sync(Apply(g, es).value, rows).value), es)
    ensures
      var live := Apply(g, es).value;
      var now := Activation.Sync(live, rows).value;
      var replayed := ReplayEntries(SnapshotAccounts(now), es);
      && replayed.Success?
      && Balance(replayed.value, a) <= Balance(now, a)
      && (Balance(replayed.value, a) == Balance(now, a) <==>
          || Debits(es, a) == 0 || Balance(g, a) == 0
          || Low(Balance(g, a), es, a) == Get(live, a).activated - Get(now, a).activated)
  {
    var live := Apply(g, es).value;
    SyncKeepsUnactivated(live, rows);
    ReloadOf(g, es, Activation.Sync(live, rows).value, a);
  }

  /** A wallet without income keeps its balance over such a restart if and only if it had spent
      nothing or everything. */
  lemma SpenderLosesUnlessBroke(g: Accounts, es: seq<Entry>, a: Address)
    requires PositiveDebits(es) && Bounded(g, es) && GenesisLike(g) && Apply(g, es).Success?
    requires Credits(es, a) == 0
    ensures ReplayEntries(SnapshotAccounts(Apply(g, es).value), es).Success?
    ensures Balance(ReplayEntries(SnapshotAccounts(Apply(g, es).value), es).value, a) == Balance(Apply(g, es).value, a)
            <==> Debits(es, a) == 0 || Debits(es, a) == Balance(g, a)
  {
    SnapshotReload(g, es, a);
    LowWithinDebits(Balance(g, a), es, a);
  }

  /** A wallet without income that kept enough loses exactly what it spent. */
  lemma SpentTwice(g: Accounts, es: seq<Entry>, a: Address)
    requires PositiveDebits(es) && Bounded(g, es) && GenesisLike(g) && Apply(g, es).Success?
    requires Credits(es, a) == 0 && 2 * Debits(es, a) <= Balance(g, a)
    ensures
      var replayed := ReplayEntries(SnapshotAccounts(Apply(g, es).value), es);
      replayed.Success? && Balance(replayed.value, a) == Balance(g, a) - 2 * Debits(es, a)
  {
    var live := Apply(g, es).value;
    SnapshotStaysBounded(g, es);
    LiveRecord(g, es, a);
    ReloadOf(g, es, live, a);
    LowWithinDebits(Get(live, a).activated, es, a);
  }

  /** The entries of a block with one transaction and no seats. */
  function OneTransfer(a: Address, b: Address, amount: nat, fee: nat): seq<Entry> {
    [Debit(a, amount + fee), Credit(b, amount), Credit(FEE_RESERVE, fee)]
  }

  lemma OneTransferIsBlock(block: Block, tx: Tx)
    requires block.body.txs == [tx] && block.body.miners == [] && block.body.totalFees == tx.fee > 0
    ensures BlockEntries(block) == OneTransfer(tx.from, tx.to, tx.amount, tx.fee)
  {
    assert [tx][1..] == [] && TxEntries([tx]) == TxPair(tx) + [] == TxPair(tx);
  }

  lemma OneTransferTotals(a: Address, b: Address, amount: nat, fee: nat, c: Address)
    ensures Debits(OneTransfer(a, b, amount, fee), c) == if c == a then amount + fee else 0
    ensures Credits(OneTransfer(a, b, amount, fee), c) ==
            (if c == b then amount else 0) + if c == FEE_RESERVE then fee else 0
  {
    var es := OneTransfer(a, b, amount, fee);
    assert es[1..] == [Credit(b, amount), Credit(FEE_RESERVE, fee)] && es[1..][1..] == [Credit(FEE_RESERVE, fee)];
    assert es[1..][1..][1..] == [];
    assert Debits(es, c) == (if c == a then amount + fee else 0) + Debits(es[1..], c);
    assert Debits(es[1..], c) == Debits(es[1..][1..], c) == 0;
    assert Credits(es, c) == Credits(es[1..], c);
    assert Credits(es[1..], c) == (if c == b then amount else 0) + Credits(es[1..][1..], c);
  }

  lemma OneTransferApplies(g: Accounts, a: Address, b: Address, amount: nat, fee: nat)
    requires a in g && amount + fee <= g[a].ants
    requires forall c :: Balance(g, c) + amount + fee <= U64_MAX
    ensures Apply(g, OneTransfer(a, b, amount, fee)).Success?
  {
    var spent := g[a := Spend(g[a], amount + fee)];
    var credits := [Credit(b, amount), Credit(FEE_RESERVE, fee)];
    assert Balance(g, b) + amount + fee <= U64_MAX && Balance(g, FEE_RESERVE) + amount + fee <= U64_MAX;
    TwoCreditsApply(spent, b, amount, fee);
    ApplyFirst(g, Debit(a, amount + fee), credits);
    assert OneTransfer(a, b, amount, fee) == [Debit(a, amount + fee)] + credits;
  }

  lemma ApplyFirst(g: Accounts, e: Entry, rest: seq<Entry>)
    requires ApplyEntry(g, e).Success?
    ensures Apply(g, [e] + rest) == Apply(ApplyEntry(g, e).value, rest)
  {
    assert ([e] + rest)[0] == e && ([e] + rest)[1..] == rest;
  }

  lemma TwoCreditsApply(g: Accounts, b: Address, amount: nat, fee: nat)
    requires Balance(g, b) + amount + fee <= U64_MAX && Balance(g, FEE_RESERVE) + amount + fee <= U64_MAX
    ensures Apply(g, [Credit(b, amount), Credit(FEE_RESERVE, fee)]).Success?
  {
    var paid := AddAnts(g, b, amount);
    ApplyFirst(paid, Credit(FEE_RESERVE, fee), []);
    ApplyFirst(g, Credit(b, amount), [Credit(FEE_RESERVE, fee)]);
    assert [Credit(FEE_RESERVE, fee)] + [] == [Credit(FEE_RESERVE, fee)];
    assert [Credit(b, amount)] + [Credit(FEE_RESERVE, fee)] == [Credit(b, amount), Credit(FEE_RESERVE, fee)];
  }

  /** One such restart in numbers: a transaction of 39000 ants with the least fee of 1000, out of 100000;
      20000 are left instead of 60000. */
  lemma TransferIsSpentTwice(block: Block, tx: Tx, sessions: u64)
    requires block.body.txs == [tx] && block.body.miners == [] && block.body.totalFees == tx.fee
    requires tx.amount == 39_000 && tx.fee == MIN_FEE_ANTS && tx.from !in {tx.to, FEE_RESERVE}
    ensures
      var g := map[tx.from := Account(100_000, 100_000, 100_000, sessions, map[])];
      var es := BlockEntries(block);
      && GenesisLike(g) && Apply(g, es).Success? && Balance(Apply(g, es).value, tx.from) == 60_000
      && ReplayEntries(SnapshotAccounts(Apply(g, es).value), es).Success?
      && Balance(ReplayEntries(SnapshotAccounts(Apply(g, es).value), es).value, tx.from) == 20_000
  {
    var g := map[tx.from := Account(100_000, 100_000, 100_000, sessions, map[])];
    var es := BlockEntries(block);
    OneTransferIsBlock(block, tx);
    OneTransferApplies(g, tx.from, tx.to, tx.amount, tx.fee);
    forall c ensures Balance(g, c) + Debits(es, c) + Credits(es, c) <= U64_MAX {
      OneTransferTotals(tx.from, tx.to, tx.amount, tx.fee, c);
    }
    OneTransferTotals(tx.from, tx.to, tx.amount, tx.fee, tx.from);
    ApplyBalance(g, es, tx.from);
    SpentTwice(g, es, tx.from);
  }
}
