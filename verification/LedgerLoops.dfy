/** The node's loops over a block and over the stored history, each proved to do
    exactly what the entry lists of `Ledger` and `Replay` say (src/state.rs:2427-2659).
    A `&mut HashMap` parameter is the parameter `accounts` together with the result. */
module LedgerLoops {
  import opened Wrappers
  import opened Ledger
  import opened Replay

  lemma {:induction false} SimConcat(s: Sim, xs: seq<Entry>, ys: seq<Entry>)
    ensures SimRun(s, xs + ys) ==
      if SimRun(s, xs).Failure? then SimRun(s, xs) else SimRun(SimRun(s, xs).value, ys)
    decreases xs
  {
    if xs == [] {
      assert xs + ys == ys;
    } else {
      assert (xs + ys)[1..] == xs[1..] + ys;
      if SimEntry(s, xs[0]).Success? {
        SimConcat(SimEntry(s, xs[0]).value, xs[1..], ys);
      }
    }
  }

  /** Fee credits never consult the top-ups. */
  lemma {:induction false} SimOfCredits(s: Sim, es: seq<Entry>)
    requires forall i :: 0 <= i < |es| ==> es[i].Credit?
    ensures SimRun(s, es) ==
      if Apply(s.accounts, es).Failure? then Failure(Apply(s.accounts, es).error)
      else Success(Sim(Apply(s.accounts, es).value, s.topUps))
    decreases es
  {
    if es != [] {
      assert es[0].Credit?;
      if SimEntry(s, es[0]).Success? {
        SimOfCredits(SimEntry(s, es[0]).value, es[1..]);
      }
    }
  }

  lemma {:induction false} MinerEntriesAreCredits(miners: seq<Address>, share: nat)
    ensures forall i :: 0 <= i < |MinerEntries(miners, share)| ==> MinerEntries(miners, share)[i].Credit?
  {
    if miners != [] {
      MinerEntriesAreCredits(miners[1..], share);
    }
  }

  lemma FeeEntriesAreCredits(b: Body)
    ensures forall i :: 0 <= i < |FeeEntries(b)| ==> FeeEntries(b)[i].Credit?
  {
    MinerEntriesAreCredits(b.miners, b.feePerMiner);
  }

  /** The result, and the accounts as the loop leaves them on success and on error. */
  method PayMiners(accounts: Accounts, miners: seq<Address>, share: u64)
    returns (r: Result<Accounts, LedgerError>, kept: Accounts)
    ensures r == Apply(accounts, MinerEntries(miners, share)) && kept == Kept(accounts, MinerEntries(miners, share))
  {
    kept := accounts;
    for i := 0 to |miners|
      invariant Apply(accounts, MinerEntries(miners, share)) == Apply(kept, MinerEntries(miners[i..], share))
      invariant Kept(accounts, MinerEntries(miners, share)) == Kept(kept, MinerEntries(miners[i..], share))
    {
      assert miners[i..][1..] == miners[i + 1..];
      assert MinerEntries(miners[i..], share)[1..] == MinerEntries(miners[i + 1..], share);
      var acct := Get(kept, miners[i]);
      if acct.ants + share > U64_MAX {
        r := Failure(CreditOverflow);
        return;
      }
      kept := kept[miners[i] := acct.(ants := acct.ants + share)];
    }
    r := Success(kept);
  }

  method PayReserve(accounts: Accounts, amount: u64) returns (r: Result<Accounts, LedgerError>)
    ensures r == Apply(accounts, [Credit(FEE_RESERVE, amount)])
    ensures r.Failure? ==> Kept(accounts, [Credit(FEE_RESERVE, amount)]) == accounts
  {
    var reserve := Get(accounts, FEE_RESERVE);
    assert [Credit(FEE_RESERVE, amount)][1..] == [];
    if reserve.ants + amount > U64_MAX {
      return Failure(CreditOverflow);
    }
    return Success(accounts[FEE_RESERVE := reserve.(ants := reserve.ants + amount)]);
  }

  lemma KeptAll(accounts: Accounts, es: seq<Entry>)
    ensures Apply(accounts, es).Success? ==> Kept(accounts, es) == Apply(accounts, es).value
  {
    KeptConcat(accounts, es, []);
  }

  method DistributeFees(accounts: Accounts, b: Body) returns (r: Result<Accounts, LedgerError>, kept: Accounts)
    ensures r == Apply(accounts, FeeEntries(b)) && kept == Kept(accounts, FeeEntries(b))
  {
    KeptAll(accounts, FeeEntries(b));
    if b.totalFees == 0 {
      return Success(accounts), accounts;
    }
    if |b.miners| == 0 {
      r := PayReserve(accounts, b.totalFees);
      kept := if r.Success? then r.value else accounts;
      return;
    }
    var remainder := b.totalFees % |b.miners|;
    ghost var tail := if remainder > 0 then [Credit(FEE_RESERVE, remainder)] else [];
    ApplyConcat(accounts, MinerEntries(b.miners, b.feePerMiner), tail);
    KeptConcat(accounts, MinerEntries(b.miners, b.feePerMiner), tail);
    r, kept := PayMiners(accounts, b.miners, b.feePerMiner);
    if r.Success? && remainder > 0 {
      r := PayReserve(r.value, remainder);
      if r.Success? {
        kept := r.value;
      }
    }
  }

  lemma ApplyPair(accounts: Accounts, e: Entry, f: Entry)
    ensures Apply(accounts, [e, f]) ==
      if ApplyEntry(accounts, e).Failure? then ApplyEntry(accounts, e) else ApplyEntry(ApplyEntry(accounts, e).value, f)
  {
    assert [e, f][1..] == [f] && [f][1..] == [];
    if ApplyEntry(accounts, e).Success? {
      assert Apply(ApplyEntry(accounts, e).value, [f]) == ApplyEntry(ApplyEntry(accounts, e).value, f);
    }
  }

  lemma SimPair(s: Sim, e: Entry, f: Entry)
    ensures SimRun(s, [e, f]) ==
      if SimEntry(s, e).Failure? then SimEntry(s, e) else SimEntry(SimEntry(s, e).value, f)
  {
    assert [e, f][1..] == [f] && [f][1..] == [];
    if SimEntry(s, e).Success? {
      assert SimRun(SimEntry(s, e).value, [f]) == SimEntry(SimEntry(s, e).value, f);
    }
  }

  lemma KeptPair(accounts: Accounts, e: Entry, f: Entry)
    ensures Kept(accounts, [e, f]) ==
      if ApplyEntry(accounts, e).Failure? then accounts
      else if ApplyEntry(ApplyEntry(accounts, e).value, f).Failure? then ApplyEntry(accounts, e).value
      else ApplyEntry(ApplyEntry(accounts, e).value, f).value
  {
    assert [e, f][1..] == [f] && [f][1..] == [];
    if ApplyEntry(accounts, e).Success? {
      var next := ApplyEntry(accounts, e).value;
      assert Kept(accounts, [e, f]) == Kept(next, [f]);
    }
  }

  method ApplyTransaction(accounts: Accounts, tx: Tx) returns (r: Result<Accounts, LedgerError>, kept: Accounts)
    ensures r == Apply(accounts, TxPair(tx)) && kept == Kept(accounts, TxPair(tx))
  {
    ApplyPair(accounts, Debit(tx.from, tx.Debit()), Credit(tx.to, tx.amount));
    KeptPair(accounts, Debit(tx.from, tx.Debit()), Credit(tx.to, tx.amount));
    kept := accounts;
    if tx.from !in accounts {
      return Failure(SenderMissing), kept;
    }
    var sender := accounts[tx.from];
    if tx.amount + tx.fee > U64_MAX {
      return Failure(DebitOverflow), kept;
    }
    var debit := tx.amount + tx.fee;
    if sender.ants < debit {
      return Failure(Underflow), kept;
    }
    kept := accounts[tx.from := sender.(ants := sender.ants - debit, activated := SatSub(sender.activated, debit))];
    var recipient := Get(kept, tx.to);
    if recipient.ants + tx.amount > U64_MAX {
      return Failure(CreditOverflow), kept;
    }
    kept := kept[tx.to := recipient.(ants := recipient.ants + tx.amount)];
    return Success(kept), kept;
  }

  lemma TxEntriesStep(txs: seq<Tx>, i: nat)
    requires i < |txs|
    ensures TxEntries(txs[i..]) == TxPair(txs[i]) + TxEntries(txs[i + 1..])
  {
    assert txs[i..][1..] == txs[i + 1..];
  }

  /** The transaction loop of `apply_block`. */
  method ApplyTransactions(accounts: Accounts, txs: seq<Tx>) returns (r: Result<Accounts, LedgerError>, kept: Accounts)
    ensures r == Apply(accounts, TxEntries(txs)) && kept == Kept(accounts, TxEntries(txs))
  {
    kept := accounts;
    for i := 0 to |txs|
      invariant Apply(accounts, TxEntries(txs)) == Apply(kept, TxEntries(txs[i..]))
      invariant Kept(accounts, TxEntries(txs)) == Kept(kept, TxEntries(txs[i..]))
    {
      TxEntriesStep(txs, i);
      ApplyConcat(kept, TxPair(txs[i]), TxEntries(txs[i + 1..]));
      KeptConcat(kept, TxPair(txs[i]), TxEntries(txs[i + 1..]));
      r, kept := ApplyTransaction(kept, txs[i]);
      if r.Failure? {
        return;
      }
    }
    r := Success(kept);
  }

  /** `apply_block`: its result, and the accounts as it leaves them, part-applied on error. */
  method ApplyBlock(accounts: Accounts, block: Block) returns (r: Result<Accounts, LedgerError>, kept: Accounts)
    ensures r == Apply(accounts, BlockEntries(block)) && kept == Kept(accounts, BlockEntries(block))
  {
    ApplyConcat(accounts, TxEntries(block.body.txs), FeeEntries(block.body));
    KeptConcat(accounts, TxEntries(block.body.txs), FeeEntries(block.body));
    r, kept := ApplyTransactions(accounts, block.body.txs);
    if r.Success? {
      r, kept := DistributeFees(r.value, block.body);
    }
  }

  /** Raises the sender if it falls short, then spends. */
  method SimulateDebit(s: Sim, from: Address, debit: nat) returns (r: Result<Sim, LedgerError>)
    ensures r == SimEntry(s, Debit(from, debit))
  {
    var sender := Get(s.accounts, from);
    var topUps := s.topUps;
    if debit > U64_MAX {
      return Failure(DebitOverflow);
    }
    if sender.ants < debit {
      var deficit := debit - sender.ants;
      if Top(topUps, from) + deficit > U64_MAX {
        return Failure(TopUpOverflow);
      }
      topUps := topUps[from := Top(topUps, from) + deficit];
      sender := sender.(
      ants := sender.ants + deficit,
      activated := SatAdd(sender.activated, deficit),
      totalActivated := SatAdd(sender.totalActivated, deficit));
    }
    sender := sender.(ants := sender.ants - debit, activated := SatSub(sender.activated, debit));
    return Success(Sim(s.accounts[from := sender], topUps));
  }

  method SimulateTransaction(s: Sim, tx: Tx) returns (r: Result<Sim, LedgerError>)
    ensures r == SimRun(s, TxPair(tx))
  {
    SimPair(s, Debit(tx.from, tx.Debit()), Credit(tx.to, tx.amount));
    r := SimulateDebit(s, tx.from, tx.amount + tx.fee);
    if r.Failure? {
      return;
    }
    var recipient := Get(r.value.accounts, tx.to);
    if recipient.ants + tx.amount > U64_MAX {
      return Failure(CreditOverflow);
    }
    r := Success(r.value.(accounts := r.value.accounts[tx.to := recipient.(ants := recipient.ants + tx.amount)]));
  }

  /** The simulation pass over one block. */
  method SimulateBlock(s: Sim, block: Block) returns (r: Result<Sim, LedgerError>)
    ensures r == SimRun(s, BlockEntries(block))
  {
    var txs := block.body.txs;
    SimConcat(s, TxEntries(txs), FeeEntries(block.body));
    r := Success(s);
    for i := 0 to |txs|
      invariant r.Success? && SimRun(s, TxEntries(txs)) == SimRun(r.value, TxEntries(txs[i..]))
    {
      TxEntriesStep(txs, i);
      SimConcat(r.value, TxPair(txs[i]), TxEntries(txs[i + 1..]));
      r := SimulateTransaction(r.value, txs[i]);
      if r.Failure? {
        return;
      }
    }
    FeeEntriesAreCredits(block.body);
    SimOfCredits(r.value, FeeEntries(block.body));
    var fees, _ := DistributeFees(r.value.accounts, block.body);
    if fees.Failure? {
      return Failure(fees.error);
    }
    return Success(r.value.(accounts := fees.value));
  }

  method ReconcileReplaySenderBalances(accounts: Accounts, blocks: seq<Block>)
    returns (r: Result<Accounts, LedgerError>)
    ensures r == Reconcile(accounts, ChainEntries(blocks))
  {
    var sim := Sim(accounts, map[]);
    for i := 0 to |blocks|
      invariant SimRun(Sim(accounts, map[]), ChainEntries(blocks)) == SimRun(sim, ChainEntries(blocks[i..]))
    {
      SimConcat(sim, BlockEntries(blocks[i]), ChainEntries(blocks[i + 1..]));
      assert blocks[i..][1..] == blocks[i + 1..];
      var step := SimulateBlock(sim, blocks[i]);
      if step.Failure? {
        return Failure(step.error);
      }
      sim := step.value;
    }
    r := AddTopUps(accounts, sim.topUps);
  }

  lemma UpFrontOneMore(g: Accounts, c: Amounts, a: Address, x: nat)
    requires Fits(g, c) && a !in c && Balance(g, a) + x <= U64_MAX
    ensures Fits(g, c[a := x])
    ensures UpFront(g, c[a := x]) == UpFront(g, c)[a := TopUp(Get(g, a), x)]
  {
  }

  lemma UpFrontElsewhere(g: Accounts, c: Amounts, a: Address)
    requires Fits(g, c) && a !in c
    ensures Get(UpFront(g, c), a) == Get(g, a)
  {
  }

  lemma DoneIsAll(topUps: Amounts, done: Amounts)
    requires done.Keys == topUps.Keys && forall a :: a in done ==> done[a] == topUps[a]
    ensures done == topUps
  {
  }

  method AddTopUp(accounts: Accounts, a: Address, x: nat) returns (r: Result<Accounts, LedgerError>)
    ensures r ==
      if Balance(accounts, a) + x > U64_MAX then Failure(TopUpOverflow)
      else Success(accounts[a := TopUp(Get(accounts, a), x)])
  {
    var acct := Get(accounts, a);
    if acct.ants + x > U64_MAX {
      return Failure(TopUpOverflow);
    }
    return Success(accounts[a := acct.(
      ants := acct.ants + x,
      activated := SatAdd(acct.activated, x),
      totalActivated := SatAdd(acct.totalActivated, x))]);
  }

  /** One account at a time, in whatever order the map yields the top-ups. */
  method AddTopUps(accounts: Accounts, topUps: Amounts) returns (r: Result<Accounts, LedgerError>)
    ensures r == if Fits(accounts, topUps) then Success(UpFront(accounts, topUps)) else Failure(TopUpOverflow)
  {
    var todo := topUps.Keys;
    ghost var done: Amounts := map[];
    assert UpFront(accounts, done) == accounts;
    r := Success(accounts);
    while todo != {}
      invariant todo <= topUps.Keys && done.Keys == topUps.Keys - todo
      invariant forall a :: a in done ==> done[a] == topUps[a]
      invariant Fits(accounts, done) && r == Success(UpFront(accounts, done))
      decreases todo
    {
      var a :| a in todo;
      UpFrontElsewhere(accounts, done, a);
      r := AddTopUp(r.value, a, topUps[a]);
      if r.Failure? {
        return;
      }
      UpFrontOneMore(accounts, done, a, topUps[a]);
      done := done[a := topUps[a]];
      todo := todo - {a};
    }
    DoneIsAll(topUps, done);
  }

  method ReplayBlocks(accounts: Accounts, blocks: seq<Block>) returns (r: Result<Accounts, LedgerError>)
    ensures r == ReplayEntries(accounts, ChainEntries(blocks))
  {
    var funded := ReconcileReplaySenderBalances(accounts, blocks);
    if funded.Failure? {
      return funded;
    }
    var cur := funded.value;
    for i := 0 to |blocks|
      invariant Apply(funded.value, ChainEntries(blocks)) == Apply(cur, ChainEntries(blocks[i..]))
    {
      ApplyConcat(cur, BlockEntries(blocks[i]), ChainEntries(blocks[i + 1..]));
      assert blocks[i..][1..] == blocks[i + 1..];
      var step, _ := ApplyBlock(cur, blocks[i]);
      if step.Failure? {
        return step;
      }
      cur := step.value;
    }
    return Success(cur);
  }
}
