/** What queueing and sealing keep: every sender can pay for everything it has queued,
    so a block seals whatever order the sort picks, and sealing moves ants without
    creating or losing any. */
module Solvency {
  import opened Wrappers
  import opened Ledger
  import opened Mempool
  import opened Sums

  ghost function Ants(accounts: Accounts): map<Address, int> {
    map a | a in accounts :: accounts[a].ants
  }

  /** All ants in existence. */
  ghost function Supply(accounts: Accounts): int {
    Sum(Ants(accounts))
  }

  lemma SupplyUpdate(accounts: Accounts, a: Address, x: Account)
    ensures Supply(accounts[a := x]) == Supply(accounts) - Balance(accounts, a) + x.ants
  {
    SumUpdate(Ants(accounts), a, x.ants);
    assert Ants(accounts[a := x]) == Ants(accounts)[a := x.ants as int];
  }

  lemma BalanceWithinSupply(accounts: Accounts, a: Address)
    ensures 0 <= Balance(accounts, a) <= Supply(accounts)
  {
    SumAtLeast(Ants(accounts), a);
  }

  ghost predicate Covered(accounts: Accounts, txs: seq<Tx>) {
    forall a :: Pending(txs, a) <= Balance(accounts, a)
  }

  ghost predicate PositiveTxs(txs: seq<Tx>) {
    forall i :: 0 <= i < |txs| ==> txs[i].Debit() > 0
  }

  /** The accounts after one transfer. */
  function Transferred(accounts: Accounts, tx: Tx): Result<Accounts, LedgerError> {
    var spent :- ApplyEntry(accounts, Debit(tx.from, tx.Debit()));
    ApplyEntry(spent, Credit(tx.to, tx.amount))
  }

  lemma CoveredTransfer(accounts: Accounts, tx: Tx)
    requires 0 < tx.Debit() <= Balance(accounts, tx.from) && Supply(accounts) <= U64_MAX
    ensures Transferred(accounts, tx).Success?
    ensures Supply(Transferred(accounts, tx).value) == Supply(accounts) - tx.fee
    ensures forall a :: Balance(Transferred(accounts, tx).value, a) >=
                        Balance(accounts, a) - if a == tx.from then tx.Debit() else 0
  {
    BalanceWithinSupply(accounts, tx.from);
    var spent := accounts[tx.from := Spend(accounts[tx.from], tx.Debit())];
    SupplyUpdate(accounts, tx.from, spent[tx.from]);
    BalanceWithinSupply(spent, tx.to);
    var next := AddAnts(spent, tx.to, tx.amount);
    SupplyUpdate(spent, tx.to, next[tx.to]);
  }

  lemma RestStaysCovered(accounts: Accounts, txs: seq<Tx>, next: Accounts)
    requires txs != [] && Covered(accounts, txs)
    requires forall a :: Balance(next, a) >= Balance(accounts, a) - if a == txs[0].from then txs[0].Debit() else 0
    ensures txs[0].Debit() <= Balance(accounts, txs[0].from)
    ensures Covered(next, txs[1..])
  {
    assert Pending(txs, txs[0].from) <= Balance(accounts, txs[0].from);
    forall a ensures Pending(txs[1..], a) <= Balance(next, a) {
      assert Pending(txs, a) <= Balance(accounts, a);
    }
  }

  /** Covered transfers run to the end in the given order, and destroy exactly the fees
      (which the fee credits then hand out). */
  lemma {:induction false} CoveredTransfersApply(accounts: Accounts, txs: seq<Tx>)
    requires Covered(accounts, txs) && PositiveTxs(txs) && Supply(accounts) <= U64_MAX
    ensures Apply(accounts, TxEntries(txs)).Success?
    ensures Supply(Apply(accounts, TxEntries(txs)).value) == Supply(accounts) - SeqSum(txs, Fee())
    decreases txs
  {
    if txs != [] {
      var tx, rest := txs[0], txs[1..];
      assert Pending(txs, tx.from) <= Balance(accounts, tx.from);
      CoveredTransfer(accounts, tx);
      var next := Transferred(accounts, tx).value;
      ApplyPairThen(accounts, tx, ApplyEntry(accounts, Debit(tx.from, tx.Debit())).value, next, TxEntries(rest));
      RestStaysCovered(accounts, txs, next);
      CoveredTransfersApply(next, rest);
    }
  }

  lemma ApplyPairThen(accounts: Accounts, tx: Tx, spent: Accounts, next: Accounts, rest: seq<Entry>)
    requires ApplyEntry(accounts, Debit(tx.from, tx.Debit())) == Success(spent)
    requires ApplyEntry(spent, Credit(tx.to, tx.amount)) == Success(next)
    ensures Apply(accounts, TxPair(tx) + rest) == Apply(next, rest)
  {
    var es := TxPair(tx) + rest;
    assert es[1..] == [Credit(tx.to, tx.amount)] + rest;
    assert es[1..][1..] == rest;
  }

  function AllCredits(es: seq<Entry>): nat {
    if es == [] then 0 else es[0].amount + AllCredits(es[1..])
  }

  predicate OnlyCredits(es: seq<Entry>) {
    forall i :: 0 <= i < |es| ==> es[i].Credit?
  }

  lemma {:induction false} CreditsApply(accounts: Accounts, es: seq<Entry>)
    requires OnlyCredits(es) && Supply(accounts) + AllCredits(es) <= U64_MAX
    ensures Apply(accounts, es).Success?
    ensures Supply(Apply(accounts, es).value) == Supply(accounts) + AllCredits(es)
    decreases es
  {
    if es != [] {
      BalanceWithinSupply(accounts, es[0].who);
      var next := AddAnts(accounts, es[0].who, es[0].amount);
      SupplyUpdate(accounts, es[0].who, next[es[0].who]);
      CreditsApply(next, es[1..]);
    }
  }

  lemma {:induction false} MinerCredits(miners: seq<Address>, share: nat)
    ensures OnlyCredits(MinerEntries(miners, share))
    ensures AllCredits(MinerEntries(miners, share)) == |miners| * share
  {
    if miners != [] {
      MinerCredits(miners[1..], share);
      var es := MinerEntries(miners, share);
      assert es[1..] == MinerEntries(miners[1..], share);
    }
  }

  lemma {:induction false} AllCreditsConcat(xs: seq<Entry>, ys: seq<Entry>)
    ensures AllCredits(xs + ys) == AllCredits(xs) + AllCredits(ys)
  {
    if xs == [] {
      assert xs + ys == ys;
    } else {
      assert (xs + ys)[1..] == xs[1..] + ys;
      AllCreditsConcat(xs[1..], ys);
    }
  }

  /** Miner shares plus the remainder are exactly the fees collected. */
  lemma FeesAreHandedOut(b: Body)
    requires b.feePerMiner == FeeShare(b.totalFees, |b.miners|)
    ensures OnlyCredits(FeeEntries(b))
    ensures AllCredits(FeeEntries(b)) == b.totalFees
  {
    if b.totalFees > 0 && b.miners != [] {
      var rest := b.totalFees % |b.miners|;
      var tail := if rest > 0 then [Credit(FEE_RESERVE, rest)] else [];
      MinerCredits(b.miners, b.feePerMiner);
      AllCreditsConcat(MinerEntries(b.miners, b.feePerMiner), tail);
      SharesAndRest(b.totalFees, |b.miners|);
    }
  }

  lemma SharesAndRest(fees: nat, miners: nat)
    requires miners > 0
    ensures miners * (fees / miners) + fees % miners == fees
  {
  }

  lemma SameTransfersSameFees(xs: seq<Tx>, ys: seq<Tx>)
    requires multiset(xs) == multiset(ys)
    ensures forall a :: Pending(xs, a) == Pending(ys, a)
    ensures SeqSum(xs, Fee()) == SeqSum(ys, Fee())
  {
    forall a ensures Pending(xs, a) == Pending(ys, a) {
      SeqSumPermutation(xs, ys, DebitFrom(a));
    }
    SeqSumPermutation(xs, ys, Fee());
  }

  lemma FeesWithinPending(accounts: Accounts, txs: seq<Tx>)
    requires Covered(accounts, txs) && PositiveTxs(txs) && Supply(accounts) <= U64_MAX
    ensures SeqSum(txs, Fee()) <= U64_MAX
  {
    CoveredTransfersApply(accounts, txs);
    BalanceWithinSupply(Apply(accounts, TxEntries(txs)).value, FEE_RESERVE);
  }

  lemma {:induction false} TxEntriesTotals(txs: seq<Tx>, a: Address)
    ensures Debits(TxEntries(txs), a) == SeqSum(txs, DebitFrom(a))
    ensures Credits(TxEntries(txs), a) == SeqSum(txs, CreditTo(a))
  {
    if txs != [] {
      TxEntriesTotals(txs[1..], a);
      SumsConcat(TxPair(txs[0]), TxEntries(txs[1..]), a);
      assert TxPair(txs[0])[1..] == [Credit(txs[0].to, txs[0].amount)];
      assert TxPair(txs[0])[1..][1..] == [];
      assert Debits([Credit(txs[0].to, txs[0].amount)], a) == 0;
      assert Credits([Credit(txs[0].to, txs[0].amount)], a) == CreditTo(a)(txs[0]);
    }
  }

  /** Any block over covered transfers applies, and the supply is what it was. */
  lemma CoveredBlockApplies(accounts: Accounts, b: Block)
    requires Covered(accounts, b.body.txs) && PositiveTxs(b.body.txs) && Supply(accounts) <= U64_MAX
    requires b.body.totalFees == SeqSum(b.body.txs, Fee())
    requires b.body.feePerMiner == FeeShare(b.body.totalFees, |b.body.miners|)
    ensures Apply(accounts, BlockEntries(b)).Success?
    ensures Supply(Apply(accounts, BlockEntries(b)).value) == Supply(accounts)
  {
    CoveredTransfersApply(accounts, b.body.txs);
    FeesAreHandedOut(b.body);
    ApplyConcat(accounts, TxEntries(b.body.txs), FeeEntries(b.body));
    CreditsApply(Apply(accounts, TxEntries(b.body.txs)).value, FeeEntries(b.body));
  }

  /** Where an account ends up depends on its totals only, not on the order of entries. */
  lemma {:induction false} ApplyRecord(accounts: Accounts, es: seq<Entry>, a: Address)
    requires Apply(accounts, es).Success?
    ensures 0 <= Balance(accounts, a) + Credits(es, a) - Debits(es, a) <= U64_MAX
    ensures Get(Apply(accounts, es).value, a) == Get(accounts, a).(
            ants := Balance(accounts, a) + Credits(es, a) - Debits(es, a),
            activated := SatSub(Get(accounts, a).activated, Debits(es, a)))
    decreases es
  {
    if es != [] {
      var next := ApplyEntry(accounts, es[0]).value;
      ApplyRecord(next, es[1..], a);
      if es[0].who == a {
        assert Get(next, a) == if es[0].Debit? then Spend(accounts[a], es[0].amount)
            else Receive(Get(accounts, a), es[0].amount);
      } else {
        assert Get(next, a) == Get(accounts, a);
      }
    }
  }

  ghost function Touched(es: seq<Entry>): set<Address> {
    set i | 0 <= i < |es| :: es[i].who
  }

  lemma {:induction false} ApplyKeys(accounts: Accounts, es: seq<Entry>)
    requires Apply(accounts, es).Success?
    ensures Apply(accounts, es).value.Keys == accounts.Keys + Touched(es)
    decreases es
  {
    if es != [] {
      var next := ApplyEntry(accounts, es[0]).value;
      ApplyKeys(next, es[1..]);
      assert next.Keys == accounts.Keys + {es[0].who};
      assert Touched(es) == {es[0].who} + Touched(es[1..]) by {
        forall i | 0 <= i < |es[1..]| ensures es[1..][i].who in Touched(es) {
          assert es[1..][i] == es[i + 1];
        }
        forall i | 1 <= i < |es| ensures es[i].who in Touched(es[1..]) {
          assert es[i] == es[1..][i - 1];
        }
      }
    }
  }

  predicate PartyTo(txs: seq<Tx>, a: Address) {
    exists i :: 0 <= i < |txs| && (txs[i].from == a || txs[i].to == a)
  }

  lemma {:induction false} TouchedByTransfers(txs: seq<Tx>, a: Address)
    ensures a in Touched(TxEntries(txs)) <==> PartyTo(txs, a)
  {
    if txs != [] {
      var tx, rest := txs[0], txs[1..];
      TouchedByTransfers(rest, a);
      TouchedConcat(TxPair(tx), TxEntries(rest), a);
      assert TxPair(tx)[0].who == tx.from && TxPair(tx)[1].who == tx.to;
      assert a in Touched(TxPair(tx)) <==> tx.from == a || tx.to == a;
      if PartyTo(rest, a) {
        var i :| 0 <= i < |rest| && (rest[i].from == a || rest[i].to == a);
        assert txs[i + 1] == rest[i];
      }
      if PartyTo(txs, a) {
        var i :| 0 <= i < |txs| && (txs[i].from == a || txs[i].to == a);
        if i > 0 {
          assert rest[i - 1] == txs[i];
        }
      }
    }
  }

  lemma TouchedConcat(xs: seq<Entry>, ys: seq<Entry>, a: Address)
    ensures a in Touched(xs + ys) <==> a in Touched(xs) || a in Touched(ys)
  {
    if a in Touched(xs) {
      var i :| 0 <= i < |xs| && xs[i].who == a;
      assert (xs + ys)[i].who == a;
    }
    if a in Touched(ys) {
      var i :| 0 <= i < |ys| && ys[i].who == a;
      assert (xs + ys)[|xs| + i].who == a;
    }
  }

  lemma SamePartiesInAnyOrder(xs: seq<Tx>, ys: seq<Tx>, a: Address)
    requires multiset(xs) == multiset(ys)
    requires PartyTo(xs, a)
    ensures PartyTo(ys, a)
  {
    var i :| 0 <= i < |xs| && (xs[i].from == a || xs[i].to == a);
    assert xs[i] in multiset(ys);
  }

  /** Main result: whatever order the queued transfers take in the block, it applies and
      leaves the same accounts, with the supply unchanged. */
  lemma AnyOrderSeals(accounts: Accounts, b: Block, txs: seq<Tx>)
    requires Covered(accounts, b.body.txs) && PositiveTxs(b.body.txs) && Supply(accounts) <= U64_MAX
    requires b.body.totalFees == SeqSum(b.body.txs, Fee())
    requires b.body.feePerMiner == FeeShare(b.body.totalFees, |b.body.miners|)
    requires multiset(txs) == multiset(b.body.txs)
    ensures Apply(accounts, BlockEntries(b)).Success?
    ensures Apply(accounts, BlockEntries(b.(body := b.body.(txs := txs)))) == Apply(accounts, BlockEntries(b))
    ensures Supply(Apply(accounts, BlockEntries(b)).value) == Supply(accounts)
  {
    var c := b.(body := b.body.(txs := txs));
    SameTransfersSameFees(txs, b.body.txs);
    forall i | 0 <= i < |txs| ensures txs[i].Debit() > 0 {
      assert txs[i] in multiset(b.body.txs);
    }
    CoveredBlockApplies(accounts, b);
    CoveredBlockApplies(accounts, c);
    var x, y := Apply(accounts, BlockEntries(b)).value, Apply(accounts, BlockEntries(c)).value;
    forall a ensures (a in x <==> a in y) && Get(x, a) == Get(y, a) {
      SameAccountInAnyOrder(accounts, b, c, a);
    }
    SameRecords(x, y);
  }

  lemma SameRecords(x: Accounts, y: Accounts)
    requires forall a :: (a in x <==> a in y) && Get(x, a) == Get(y, a)
    ensures x == y
  {
    forall a | a in x ensures x[a] == y[a] {
      assert Get(x, a) == Get(y, a);
    }
  }

  lemma SameAccountInAnyOrder(accounts: Accounts, b: Block, c: Block, a: Address)
    requires multiset(b.body.txs) == multiset(c.body.txs) && FeeEntries(b.body) == FeeEntries(c.body)
    requires Apply(accounts, BlockEntries(b)).Success? && Apply(accounts, BlockEntries(c)).Success?
    ensures a in Apply(accounts, BlockEntries(b)).value <==> a in Apply(accounts, BlockEntries(c)).value
    ensures Get(Apply(accounts, BlockEntries(b)).value, a) == Get(Apply(accounts, BlockEntries(c)).value, a)
  {
    var xs, ys := b.body.txs, c.body.txs;
    SeqSumPermutation(xs, ys, DebitFrom(a));
    SeqSumPermutation(xs, ys, CreditTo(a));
    TxEntriesTotals(xs, a);
    TxEntriesTotals(ys, a);
    SumsConcat(TxEntries(xs), FeeEntries(b.body), a);
    SumsConcat(TxEntries(ys), FeeEntries(c.body), a);
    ApplyRecord(accounts, BlockEntries(b), a);
    ApplyRecord(accounts, BlockEntries(c), a);
    ApplyKeys(accounts, BlockEntries(b));
    ApplyKeys(accounts, BlockEntries(c));
    TouchedConcat(TxEntries(xs), FeeEntries(b.body), a);
    TouchedConcat(TxEntries(ys), FeeEntries(c.body), a);
    TouchedByTransfers(xs, a);
    TouchedByTransfers(ys, a);
    if PartyTo(xs, a) {
      SamePartiesInAnyOrder(xs, ys, a);
    } else if PartyTo(ys, a) {
      SamePartiesInAnyOrder(ys, xs, a);
    }
  }
}
