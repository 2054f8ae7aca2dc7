/** A queue is checked against balances when it is filled, and nothing reserves them: burns and
    trades (src/state.rs:1131-1222, 1396-1832) may spend what queued transfers need. The seal
    then fails at the transfer that is short, and the whole queue is gone
    (src/state.rs:2226-2275, 2571-2600). */
module SpentQueue {
  import opened Wrappers
  import opened Ledger
  import opened Mempool
  import opened OffBlock
  import opened Replay
  import opened Solvency
  import opened Sums
  import ActivatedSupply
  import Dex
  import Runs

  /** The running balance of an address never falls below zero. */
  predicate Afloat(accounts: Accounts, txs: seq<Tx>, a: Address) {
    Low(Balance(accounts, a), TxEntries(txs), a) >= 0
  }

  function Owing(tx: Tx, a: Address): nat {
    if tx.from == a then tx.Debit() else 0
  }

  function Gaining(tx: Tx, a: Address): nat {
    if tx.to == a then tx.amount else 0
  }

  lemma LowOfPair(balance: int, tx: Tx, rest: seq<Entry>, a: Address)
    ensures Low(balance, TxPair(tx) + rest, a) ==
      MinInt(balance, MinInt(balance - Owing(tx, a), Low(balance - Owing(tx, a) + Gaining(tx, a), rest, a)))
  {
    var es := TxPair(tx) + rest;
    assert es[1..] == [Credit(tx.to, tx.amount)] + rest && es[1..][1..] == rest;
  }

  /** The first transfer goes through, and its parties' balances are as expected. */
  lemma FirstTransfer(accounts: Accounts, txs: seq<Tx>) returns (next: Accounts)
    requires txs != [] && txs[0].Debit() > 0 && Supply(accounts) <= U64_MAX
    requires Afloat(accounts, txs, txs[0].from)
    ensures Apply(accounts, TxEntries(txs)) == Apply(next, TxEntries(txs[1..]))
    ensures Supply(next) == Supply(accounts) - txs[0].fee
    ensures forall a :: Balance(next, a) == Balance(accounts, a) - Owing(txs[0], a) + Gaining(txs[0], a)
  {
    var tx, rest := txs[0], TxEntries(txs[1..]);
    LowOfPair(Balance(accounts, tx.from), tx, rest, tx.from);
    CoveredTransfer(accounts, tx);
    next := Transferred(accounts, tx).value;
    ApplyPairThen(accounts, tx, ApplyEntry(accounts, Debit(tx.from, tx.Debit())).value, next, rest);
  }

  lemma RestStaysAfloat(accounts: Accounts, next: Accounts, txs: seq<Tx>, a: Address)
    requires txs != [] && Afloat(accounts, txs, a)
    requires Balance(next, a) == Balance(accounts, a) - Owing(txs[0], a) + Gaining(txs[0], a)
    ensures Afloat(next, txs[1..], a)
  {
    LowOfPair(Balance(accounts, a), txs[0], TxEntries(txs[1..]), a);
  }

  lemma {:induction false} AfloatTransfersApply(accounts: Accounts, txs: seq<Tx>)
    requires PositiveTxs(txs) && Supply(accounts) <= U64_MAX && forall a :: Afloat(accounts, txs, a)
    ensures Apply(accounts, TxEntries(txs)).Success?
    ensures Supply(Apply(accounts, TxEntries(txs)).value) == Supply(accounts) - SeqSum(txs, Fee())
    decreases txs
  {
    if txs != [] {
      assert Afloat(accounts, txs, txs[0].from);
      var next := FirstTransfer(accounts, txs);
      forall a ensures Afloat(next, txs[1..], a) {
        assert Afloat(accounts, txs, a);
        RestStaysAfloat(accounts, next, txs, a);
      }
      AfloatTransfersApply(next, txs[1..]);
    }
  }

  /** Main result: while all ants fit 64 bits, transfers apply in the given order if and only if they
      take nobody's running balance below zero. */
  lemma TransfersApplyIffAfloat(accounts: Accounts, txs: seq<Tx>)
    requires PositiveTxs(txs) && Supply(accounts) <= U64_MAX
    ensures Apply(accounts, TxEntries(txs)).Success? <==> forall a :: Afloat(accounts, txs, a)
  {
    if Apply(accounts, TxEntries(txs)).Success? {
      forall a ensures Afloat(accounts, txs, a) {
        AppliedStaysAfloat(accounts, TxEntries(txs), a);
      }
    } else if forall a :: Afloat(accounts, txs, a) {
      AfloatTransfersApply(accounts, txs);
    }
  }

  lemma BlockAppliesIff(accounts: Accounts, b: Block)
    requires PositiveTxs(b.body.txs) && Supply(accounts) <= U64_MAX
    requires b.body.totalFees == SeqSum(b.body.txs, Fee())
    requires b.body.feePerMiner == FeeShare(b.body.totalFees, |b.body.miners|)
    ensures Apply(accounts, BlockEntries(b)).Success? <==> forall a :: Afloat(accounts, b.body.txs, a)
  {
    var es := TxEntries(b.body.txs);
    TransfersApplyIffAfloat(accounts, b.body.txs);
    ApplyConcat(accounts, es, FeeEntries(b.body));
    if Apply(accounts, es).Success? {
      AfloatTransfersApply(accounts, b.body.txs);
      FeesAreHandedOut(b.body);
      CreditsApply(Apply(accounts, es).value, FeeEntries(b.body));
    }
  }

  predicate AllValid(txs: seq<Tx>) {
    forall i :: 0 <= i < |txs| ==> Valid(txs[i])
  }

  lemma ValidInBlockOrder(queue: seq<Tx>)
    ensures AllValid(queue) <==> AllValid(SortForBlock(queue))
  {
    var txs := SortForBlock(queue);
    Runs.SortedQueue(queue);
    forall i | 0 <= i < |queue| ensures queue[i] in txs {
      assert queue[i] in multiset(txs);
    }
    forall i | 0 <= i < |txs| ensures txs[i] in queue {
      Runs.SortedMember(queue, i);
    }
  }

  /** Main result: whatever happened to the balances since the queue was filled, it seals if and only
      if the window is not empty, every transfer validates and, in block order, nobody's running
      balance falls below zero. */
  lemma SealsIffAfloat(hashOf: Body -> string, n: Node, start: int, end: int)
    requires Supply(n.accounts) <= U64_MAX
    ensures Seal(hashOf, n, start, end).Success? <==>
            start < end && AllValid(n.mempool) && forall a :: Afloat(n.accounts, SortForBlock(n.mempool), a)
  {
    var txs := SortForBlock(n.mempool);
    ValidInBlockOrder(n.mempool);
    var made := NewBlock(hashOf, NextHeight(n.blocks), start, end, TipHash(n.blocks), txs, n.miners);
    if AllValid(txs) {
      if forall a :: Afloat(n.accounts, txs, a) {
        AfloatTransfersApply(n.accounts, txs);
        BalanceWithinSupply(Apply(n.accounts, TxEntries(txs)).value, FEE_RESERVE);
      }
      if made.Success? {
        BlockAppliesIff(n.accounts, made.value);
      }
    }
  }

  /** Whoever covers its queued debits stays afloat; without queued income, nobody else does. */
  lemma AfloatIfCovered(accounts: Accounts, txs: seq<Tx>, a: Address)
    ensures Pending(txs, a) <= Balance(accounts, a) ==> Afloat(accounts, txs, a)
    ensures (forall i :: 0 <= i < |txs| ==> txs[i].to != a) ==>
              (Afloat(accounts, txs, a) <==> Pending(txs, a) <= Balance(accounts, a))
  {
    TxEntriesTotals(txs, a);
    LowWithinDebits(Balance(accounts, a), TxEntries(txs), a);
    if forall i :: 0 <= i < |txs| ==> txs[i].to != a {
      NoIncome(txs, a);
    }
  }

  lemma {:induction false} NoIncome(txs: seq<Tx>, a: Address)
    requires forall i :: 0 <= i < |txs| ==> txs[i].to != a
    ensures SeqSum(txs, CreditTo(a)) == 0
  {
    if txs != [] {
      NoIncome(txs[1..], a);
    }
  }

  /** Nobody but `a` has fewer ants than before. */
  ghost predicate OnlySpends(before: Accounts, after: Accounts, a: Address) {
    forall b :: b != a ==> Balance(before, b) <= Balance(after, b)
  }

  lemma OthersStayAfloat(before: Accounts, after: Accounts, queue: seq<Tx>, a: Address)
    requires Covered(before, queue) && OnlySpends(before, after, a)
    ensures forall b :: b != a ==> Afloat(after, SortForBlock(queue), b)
  {
    var txs := SortForBlock(queue);
    Runs.SortedQueue(queue);
    SameTransfersSameFees(txs, queue);
    forall b | b != a ensures Afloat(after, txs, b) {
      assert Pending(queue, b) <= Balance(before, b) <= Balance(after, b);
      AfloatIfCovered(after, txs, b);
    }
  }

  lemma SpenderAfloat(after: Accounts, queue: seq<Tx>, a: Address)
    ensures (forall i :: 0 <= i < |queue| ==> queue[i].to != a) ==>
              (Afloat(after, SortForBlock(queue), a) <==> Pending(queue, a) <= Balance(after, a))
  {
    var txs := SortForBlock(queue);
    Runs.SortedQueue(queue);
    SameTransfersSameFees(txs, queue);
    AfloatIfCovered(after, txs, a);
    NobodyPays(queue, txs, a);
  }

  lemma SealLeaves(hashOf: Body -> string, n: Node, start: int, end: int)
    ensures
      var m := SealAttempt(hashOf, n, start, end, Stores);
      && m.mempool == [] && n.blocks <= m.blocks
      && (m.blocks != n.blocks <==> Seal(hashOf, n, start, end).Success?)
  {
  }

  /** Main result: take a queue whose debits were covered, and let one address spend ants outside
      blocks. The next seal appends a block if and only if it would have and the spender's running
      balance still stays afloat; without queued income, if and only if what it kept covers its own
      queued debits. Otherwise everybody's queued transfers are gone. */
  lemma SpenderDecidesSeal(hashOf: Body -> string, n: Node, after: Accounts, a: Address, start: int, end: int)
    requires Covered(n.accounts, n.mempool) && OnlySpends(n.accounts, after, a) && Supply(after) <= U64_MAX
    ensures
      var m := SealAttempt(hashOf, n.(accounts := after), start, end, Stores);
      var txs := SortForBlock(n.mempool);
      && m.mempool == [] && n.blocks <= m.blocks
      && (m.blocks != n.blocks <==> start < end && AllValid(n.mempool) && Afloat(after, txs, a))
      && ((forall i :: 0 <= i < |n.mempool| ==> n.mempool[i].to != a) ==>
            (Afloat(after, txs, a) <==> Pending(n.mempool, a) <= Balance(after, a)))
  {
    var m := n.(accounts := after);
    SealsIffAfloat(hashOf, m, start, end);
    SealLeaves(hashOf, m, start, end);
    OthersStayAfloat(n.accounts, after, n.mempool, a);
    SpenderAfloat(after, n.mempool, a);
    assert (forall b :: Afloat(after, SortForBlock(n.mempool), b)) <==> Afloat(after, SortForBlock(n.mempool), a);
  }

  lemma NobodyPays(queue: seq<Tx>, txs: seq<Tx>, a: Address)
    requires multiset(queue) == multiset(txs)
    ensures (forall i :: 0 <= i < |queue| ==> queue[i].to != a) ==> forall i :: 0 <= i < |txs| ==> txs[i].to != a
  {
    forall i | 0 <= i < |txs| ensures txs[i] in queue {
      assert txs[i] in multiset(queue);
    }
  }

  lemma {:induction false} CreditsRaise(accounts: Accounts, es: seq<Entry>, a: Address)
    requires OnlyCredits(es)
    ensures Balance(accounts, a) <= Balance(Kept(accounts, es), a)
    decreases es
  {
    if es != [] && ApplyEntry(accounts, es[0]).Success? {
      CreditsRaise(ApplyEntry(accounts, es[0]).value, es[1..], a);
    }
  }

  lemma SharesRaise(accounts: Accounts, validators: seq<Address>, a: Address)
    ensures Balance(accounts, a) <= Balance(ActivatedSupply.ShareKept(accounts, validators), a)
  {
    if validators == [] {
      CreditsRaise(accounts, [Credit(FEE_RESERVE, MIN_FEE_ANTS)], a);
    } else {
      var per, rest := MIN_FEE_ANTS / |validators|, MIN_FEE_ANTS % |validators|;
      var shares := if per > 0 then MinerEntries(validators, per) else [];
      MinerCredits(validators, per);
      CreditsRaise(accounts, shares, a);
      KeptConcat(accounts, shares, []);
      CreditsRaise(Kept(accounts, shares), [Credit(FEE_RESERVE, rest)], a);
    }
  }

  lemma BurnOnlySpends(accounts: Accounts, a: Address, amount: u64, validators: seq<Address>)
    requires ActivatedSupply.Burn(accounts, a, amount, validators).Success?
    requires Supply(accounts) <= U64_MAX && a !in validators && a != FEE_RESERVE
    ensures
      var after := ActivatedSupply.BurnKept(accounts, a, amount, validators);
      && OnlySpends(accounts, after, a) && Supply(after) <= U64_MAX
      && Balance(after, a) == Balance(accounts, a) - amount - MIN_FEE_ANTS
  {
    var spent := accounts[a := Spend(accounts[a], amount + MIN_FEE_ANTS)];
    ActivatedSupply.BurnOkIsKept(accounts, a, amount, validators);
    ActivatedSupply.BurnDestroysExactlyAmount(accounts, a, amount, validators);
    SharesMissOthers(spent, validators, a);
    forall b | b != a ensures Balance(accounts, b) <= Balance(ActivatedSupply.ShareKept(spent, validators), b) {
      SharesRaise(spent, validators, b);
    }
  }

  lemma ThenSeal(hashOf: Body -> string, w: World, ev: Event, mid: World, start: int, end: int)
    requires Do(hashOf, w, ev) == Some(mid)
    ensures Play(hashOf, w, [ev, Call(Runs.SealBlock(start, end, Stores))]) ==
            Some(mid.(node := SealAttempt(hashOf, mid.node, start, end, Stores)))
  {
    var seal := Call(Runs.SealBlock(start, end, Stores));
    assert [ev, seal][1..] == [seal] && [seal][1..] == [];
    assert Play(hashOf, mid, [seal]) == Do(hashOf, mid, seal);
  }

  /** `ev` spends what `a` owns outside blocks, and the next call seals. */
  lemma SpendThenSeal(hashOf: Body -> string, w: World, ev: Event, mid: World, after: Accounts, a: Address, start: int,
                      end: int)
    requires Do(hashOf, w, ev) == Some(mid) && mid.node == w.node.(accounts := after)
    requires Covered(w.node.accounts, w.node.mempool) && OnlySpends(w.node.accounts, after, a)
    requires Supply(after) <= U64_MAX && start < end && AllValid(w.node.mempool)
    requires forall i :: 0 <= i < |w.node.mempool| ==> w.node.mempool[i].to != a
    ensures
      var run := Play(hashOf, w, [ev, Call(Runs.SealBlock(start, end, Stores))]);
      && run.Some? && run.value.node.mempool == []
      && (run.value.node.blocks == w.node.blocks <==> Balance(after, a) < Pending(w.node.mempool, a))
  {
    SpenderDecidesSeal(hashOf, w.node, after, a, start, end);
    ThenSeal(hashOf, w, ev, mid, start, end);
  }

  /** So a wallet that burns more than its queued transfers leave it, without queued income, makes
      every wallet's queued transfers disappear; and it is the only way a burn can. */
  lemma BurnLosesQueueIff(hashOf: Body -> string, w: World, a: Address, amount: u64, validators: seq<Address>,
                          start: int, end: int)
    requires ActivatedSupply.Burn(w.node.accounts, a, amount, validators).Success?
    requires a !in validators && a != FEE_RESERVE
    requires Covered(w.node.accounts, w.node.mempool) && Supply(w.node.accounts) <= U64_MAX
    requires start < end && AllValid(w.node.mempool)
    requires forall i :: 0 <= i < |w.node.mempool| ==> w.node.mempool[i].to != a
    ensures
      var burn := Outside(ActivatedSupply.BurnStep(a, amount, validators));
      var run := Play(hashOf, w, [burn, Call(Runs.SealBlock(start, end, Stores))]);
      && run.Some? && run.value.node.mempool == []
      && (run.value.node.blocks == w.node.blocks <==>
          Balance(w.node.accounts, a) - amount - MIN_FEE_ANTS < Pending(w.node.mempool, a))
  {
    var after := ActivatedSupply.BurnKept(w.node.accounts, a, amount, validators);
    BurnOnlySpends(w.node.accounts, a, amount, validators);
    SpendThenSeal(hashOf, w, Outside(ActivatedSupply.BurnStep(a, amount, validators)),
      w.(node := w.node.(accounts := after)), after, a, start, end);
  }

  /** A wrap leaves the ants it took out of one balance. */
  lemma WrapOnlySpends(hashOf: Body -> string, w: World, a: Address, amount: u64) returns (after: Accounts)
    requires Dex.Wrap(DexOf(w), a, amount).Success?
    ensures
      var wrap := Outside(ActivatedSupply.DexStep(Dex.WrapAnet(a, amount), w.pools));
      Do(hashOf, w, wrap) == Some(w.(node := w.node.(accounts := after)))
    ensures OnlySpends(w.node.accounts, after, a) && Supply(after) == Supply(w.node.accounts) - amount
    ensures Balance(after, a) == Balance(w.node.accounts, a) - amount
  {
    after := Dex.Wrap(DexOf(w), a, amount).value.accounts;
    SupplyUpdate(w.node.accounts, a, after[a]);
  }

  /** The same for ants that are wrapped. */
  lemma WrapLosesQueueIff(hashOf: Body -> string, w: World, a: Address, amount: u64, start: int, end: int)
    requires Dex.Wrap(DexOf(w), a, amount).Success?
    requires Covered(w.node.accounts, w.node.mempool) && Supply(w.node.accounts) <= U64_MAX
    requires start < end && AllValid(w.node.mempool)
    requires forall i :: 0 <= i < |w.node.mempool| ==> w.node.mempool[i].to != a
    ensures
      var wrap := Outside(ActivatedSupply.DexStep(Dex.WrapAnet(a, amount), w.pools));
      var run := Play(hashOf, w, [wrap, Call(Runs.SealBlock(start, end, Stores))]);
      && run.Some? && run.value.node.mempool == []
      && (run.value.node.blocks == w.node.blocks <==>
          Balance(w.node.accounts, a) - amount < Pending(w.node.mempool, a))
  {
    var after := WrapOnlySpends(hashOf, w, a, amount);
    SpendThenSeal(hashOf, w, Outside(ActivatedSupply.DexStep(Dex.WrapAnet(a, amount), w.pools)),
      w.(node := w.node.(accounts := after)), after, a, start, end);
  }
}
