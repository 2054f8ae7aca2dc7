/** Every state reached by queueing signed transfers, queueing bridge credits, crediting
    activation snapshots and sealing. */
module Runs {
  import opened Wrappers
  import opened Ledger
  import opened Mempool
  import opened Ordering
  import opened Sums
  import opened Solvency
  import Activation
  import Text

  /** One call into the node, whatever it returns. */
  datatype Step =
    | Transfer(tx: Tx)
    | BridgeCredit(recipient: Address, amount: u64, memoHash: string, now: int, id: string)
    | Activate(row: Activation.Snapshot)
    | SealBlock(start: int, end: int, db: Db)

  ghost function Next(hashOf: Body -> string, n: Node, step: Step): Node {
    match step
    case Transfer(tx) => var r := QueueTransaction(n, tx); if r.Success? then r.value else n
    case BridgeCredit(to, amount, memoHash, now, id) =>
      var r := QueueBridgeCredit(n, to, amount, memoHash, now, id); if r.Success? then r.value else n
    case Activate(row) => n.(accounts := Activation.RowKept(n.accounts, row))
    case SealBlock(start, end, db) => SealAttempt(hashOf, n, start, end, db)
  }

  ghost function Run(hashOf: Body -> string, n: Node, steps: seq<Step>): Node
    decreases |steps|
  {
    if steps == [] then n
    else Next(hashOf, Run(hashOf, n, steps[..|steps| - 1]), steps[|steps| - 1])
  }

  /** The synthetic treasury is not a Web2 wallet, so no snapshot lists it. */
  predicate OrdinarySteps(steps: seq<Step>) {
    forall i :: 0 <= i < |steps| && steps[i].Activate? ==> steps[i].row.address != TREASURY
  }

  /** A queued transaction is either an accepted signed transfer or a bridge credit. */
  predicate QueuedTx(tx: Tx) {
    && Text.ValidWallet(tx.from) && Text.ValidWallet(tx.to) && tx.from != tx.to
    && tx.to != TREASURY
    && tx.amount > 0 && tx.fee >= MIN_FEE_ANTS
    && (if tx.from == TREASURY then tx.auth.Legacy? && tx.nonce == 0
        else tx.auth.Signed? && tx.auth.genuine && tx.nonce >= 1 && ValidMemo(tx.memo))
  }

  predicate AllQueuedTx(txs: seq<Tx>) {
    forall i :: 0 <= i < |txs| ==> QueuedTx(txs[i])
  }

  /** For each signing sender the queued nonces are distinct and fill, without a gap,
      the range just above its committed nonce. */
  ghost predicate GaplessNonces(txs: seq<Tx>, nonces: map<Address, u64>) {
    && (forall i :: 0 <= i < |txs| && txs[i].from != TREASURY ==> txs[i].nonce > Nonce(nonces, txs[i].from))
    && (forall i, j :: 0 <= i < j < |txs| && txs[i].from == txs[j].from != TREASURY ==> txs[i].nonce != txs[j].nonce)
    && (forall i, m: u64 :: 0 <= i < |txs| && txs[i].from != TREASURY && Nonce(nonces, txs[i].from) < m < txs[i].nonce
                            ==> NonceQueued(txs, txs[i].from, m))
  }

  ghost predicate Sound(n: Node) {
    && Covered(n.accounts, n.mempool)
    && AllQueuedTx(n.mempool)
    && GaplessNonces(n.mempool, n.nonces)
    && TREASURY !in n.funded
    && Get(n.accounts, TREASURY).sessions < MIN_SESSIONS_FOR_ANET
    && Nonce(n.nonces, TREASURY) == 0
  }

  lemma QueuedArePositive(txs: seq<Tx>)
    requires AllQueuedTx(txs)
    ensures PositiveTxs(txs)
  {
  }

  lemma PendingAppend(txs: seq<Tx>, tx: Tx, a: Address)
    ensures Pending(txs + [tx], a) == Pending(txs, a) + (if tx.from == a then tx.Debit() else 0)
  {
    SeqSumConcat(txs, [tx], DebitFrom(a));
    assert [tx][1..] == [];
  }

  lemma NonceQueuedAppend(txs: seq<Tx>, tx: Tx, a: Address, m: u64)
    ensures NonceQueued(txs + [tx], a, m) <==> NonceQueued(txs, a, m) || (tx.from == a && tx.nonce == m)
  {
    var all := txs + [tx];
    if NonceQueued(txs, a, m) {
      var i :| 0 <= i < |txs| && txs[i].from == a && txs[i].nonce == m;
      assert all[i] == txs[i];
    }
    if tx.from == a && tx.nonce == m {
      assert all[|txs|] == tx;
    }
  }

  lemma AcceptedNonceKeepsGapless(txs: seq<Tx>, nonces: map<Address, u64>, tx: Tx)
    requires GaplessNonces(txs, nonces)
    requires tx.from != TREASURY ==> LeastFreeNonce(txs, tx.from, Nonce(nonces, tx.from), tx.nonce)
    ensures GaplessNonces(txs + [tx], nonces)
  {
    var all := txs + [tx];
    forall i, j | 0 <= i < j < |all| && all[i].from == all[j].from != TREASURY ensures all[i].nonce != all[j].nonce {
      if j == |txs| {
        assert !NonceQueued(txs, tx.from, tx.nonce);
      }
    }
    forall i, m: u64 | 0 <= i < |all| && all[i].from != TREASURY && Nonce(nonces, all[i].from) < m < all[i].nonce
      ensures NonceQueued(all, all[i].from, m)
    {
      NonceQueuedAppend(txs, tx, all[i].from, m);
    }
  }

  lemma TransferKeepsSound(n: Node, tx: Tx)
    requires Sound(n) && QueueTransaction(n, tx).Success?
    ensures Sound(QueueTransaction(n, tx).value)
  {
    var m := QueueTransaction(n, tx).value;
    assert Rejection(n, tx).None?;
    assert tx.from != TREASURY && tx.to != TREASURY;
    AcceptedNonceKeepsGapless(n.mempool, n.nonces, tx);
    forall a ensures Pending(m.mempool, a) <= Balance(m.accounts, a) {
      PendingAppend(n.mempool, tx, a);
      assert Pending(n.mempool, a) <= Balance(n.accounts, a);
    }
  }

  lemma BridgeTxIsQueuedTx(recipient: Address, amount: u64, memoHash: string, now: int, chainId: string, id: string)
    requires amount > 0 && Text.ValidWallet(recipient) && recipient != TREASURY
    ensures QueuedTx(BridgeTx(recipient, amount, memoHash, now, chainId, id))
  {
    assert |TREASURY| == 40 && "ANET" <= TREASURY;
  }

  lemma FundedDebitStaysCovered(accounts: Accounts, txs: seq<Tx>, tx: Tx)
    requires Covered(accounts, txs) && Balance(accounts, tx.from) + tx.Debit() <= U64_MAX
    ensures Covered(AddAnts(accounts, tx.from, tx.Debit()), txs + [tx])
  {
    var after := AddAnts(accounts, tx.from, tx.Debit());
    forall a ensures Pending(txs + [tx], a) <= Balance(after, a) {
      PendingAppend(txs, tx, a);
      assert Pending(txs, a) <= Balance(accounts, a);
    }
  }

  lemma BridgeCreditKeepsSound(n: Node, recipient: Address, amount: u64, memoHash: string, now: int, id: string)
    requires Sound(n) && QueueBridgeCredit(n, recipient, amount, memoHash, now, id).Success?
    ensures Sound(QueueBridgeCredit(n, recipient, amount, memoHash, now, id).value)
  {
    var tx := BridgeTx(recipient, amount, memoHash, now, n.chainId, id);
    BridgeTxIsQueuedTx(recipient, amount, memoHash, now, n.chainId, id);
    AcceptedNonceKeepsGapless(n.mempool, n.nonces, tx);
    FundedDebitStaysCovered(n.accounts, n.mempool, tx);
  }

  lemma ActivateKeepsSound(n: Node, row: Activation.Snapshot)
    requires Sound(n) && row.address != TREASURY
    ensures Sound(n.(accounts := Activation.RowKept(n.accounts, row)))
  {
    var after := Activation.RowKept(n.accounts, row);
    forall a ensures Pending(n.mempool, a) <= Balance(after, a) {
      assert Pending(n.mempool, a) <= Balance(n.accounts, a) <= Balance(after, a);
    }
  }

  lemma TxBeforeIsPreorder()
    ensures TotalPreorder(TxBefore)
  {
    forall x, y ensures TxBefore(x, y) || TxBefore(y, x) {
      LexTotal(x.from, y.from);
      LexTotal(x.TxHash(), y.TxHash());
    }
    forall x, y, z | TxBefore(x, y) && TxBefore(y, z) ensures TxBefore(x, z) {
      if LexLe(x.from, y.from) && LexLe(y.from, z.from) {
        LexTransitive(x.from, y.from, z.from);
        if x.from == z.from {
          LexAntisymmetric(x.from, y.from);
        }
      }
      if LexLe(x.TxHash(), y.TxHash()) && LexLe(y.TxHash(), z.TxHash()) {
        LexTransitive(x.TxHash(), y.TxHash(), z.TxHash());
      }
    }
  }

  lemma SortedQueue(txs: seq<Tx>)
    ensures SortedBy(SortForBlock(txs), TxBefore)
    ensures multiset(SortForBlock(txs)) == multiset(txs)
  {
    TxBeforeIsPreorder();
    SortSorts(txs, TxBefore);
  }

  lemma SortedMember(txs: seq<Tx>, i: nat)
    requires i < |SortForBlock(txs)|
    ensures SortForBlock(txs)[i] in txs
  {
    SortedQueue(txs);
    assert SortForBlock(txs)[i] in multiset(txs);
  }

  lemma {:induction false} CommittedTreasuryNonce(nonces: map<Address, u64>, txs: seq<Tx>)
    requires Nonce(nonces, TREASURY) == 0 && AllQueuedTx(txs)
    ensures Nonce(CommitNonces(nonces, txs), TREASURY) == 0
  {
    if txs != [] {
      CommittedTreasuryNonce(nonces, txs[..|txs| - 1]);
    }
  }

  lemma KeptKeepsSessions(accounts: Accounts, es: seq<Entry>, a: Address)
    ensures Get(Kept(accounts, es), a).sessions == Get(accounts, a).sessions
  {
    var done := KeptIsPrefix(accounts, es);
    ApplyRecord(accounts, es[..done], a);
  }

  /** An empty queue is sound whatever happened to the balances. */
  lemma EmptyQueueIsSound(n: Node)
    requires n.mempool == [] && TREASURY !in n.funded
    requires Get(n.accounts, TREASURY).sessions < MIN_SESSIONS_FOR_ANET && Nonce(n.nonces, TREASURY) == 0
    ensures Sound(n)
  {
    forall a ensures Pending([], a) <= Balance(n.accounts, a) {
    }
  }

  lemma SealKeepsMark(hashOf: Body -> string, n: Node, start: int, end: int, db: Db)
    requires Sound(n)
    ensures
      var m := SealAttempt(hashOf, n, start, end, db);
      && m.funded == n.funded
      && Get(m.accounts, TREASURY).sessions == Get(n.accounts, TREASURY).sessions
      && Nonce(m.nonces, TREASURY) == 0
  {
    SealedParts(hashOf, n, start, end);
    SortedNonce(n);
    var made := NewBlock(hashOf, NextHeight(n.blocks), start, end, TipHash(n.blocks), SortForBlock(n.mempool),
      n.miners);
    if made.Success? {
      KeptKeepsSessions(n.accounts, BlockEntries(made.value), TREASURY);
      if Seal(hashOf, n, start, end).Success? {
        SealedWhole(hashOf, n, start, end, made.value);
      }
    }
  }

  lemma SortedNonce(n: Node)
    requires Sound(n)
    ensures Nonce(CommitNonces(n.nonces, SortForBlock(n.mempool)), TREASURY) == 0
  {
    var txs := SortForBlock(n.mempool);
    forall i | 0 <= i < |txs| ensures QueuedTx(txs[i]) {
      SortedMember(n.mempool, i);
    }
    CommittedTreasuryNonce(n.nonces, txs);
  }

  /** A successful seal appends one block of the sorted queue. */
  lemma SealAppends(hashOf: Body -> string, n: Node, start: int, end: int) returns (b: Block)
    requires Seal(hashOf, n, start, end).Success?
    ensures
      var m := Seal(hashOf, n, start, end).value;
      && m.blocks == n.blocks + [b] && b.body.txs == SortForBlock(n.mempool)
      && m.mempool == [] && m.nonces == CommitNonces(n.nonces, b.body.txs)
  {
    b := NewBlock(hashOf, NextHeight(n.blocks), start, end, TipHash(n.blocks), SortForBlock(n.mempool), n.miners).value;
  }

  /** What a seal can do to accounts and nonces. */
  ghost predicate SealedPart(n: Node, made: Result<Block, NodeError>, m: Node) {
    && m.funded == n.funded
    && (m.accounts == n.accounts || (made.Success? && m.accounts == Kept(n.accounts, BlockEntries(made.value))))
    && (m.nonces == n.nonces || m.nonces == CommitNonces(n.nonces, SortForBlock(n.mempool)))
  }

  lemma SealedWhole(hashOf: Body -> string, n: Node, start: int, end: int, b: Block)
    requires NewBlock(hashOf, NextHeight(n.blocks), start, end, TipHash(n.blocks), SortForBlock(n.mempool),
        n.miners) == Success(b)
    requires Seal(hashOf, n, start, end).Success?
    ensures SealedPart(n, Success(b), Seal(hashOf, n, start, end).value)
  {
    KeptConcat(n.accounts, BlockEntries(b), []);
  }

  lemma SealedParts(hashOf: Body -> string, n: Node, start: int, end: int)
    ensures
      var made := NewBlock(hashOf, NextHeight(n.blocks), start, end, TipHash(n.blocks), SortForBlock(n.mempool),
        n.miners);
      SealedPart(n, made, SealKept(hashOf, n, start, end))
  {
    var made := NewBlock(hashOf, NextHeight(n.blocks), start, end, TipHash(n.blocks), SortForBlock(n.mempool),
      n.miners);
    if made.Success? {
      KeptConcat(n.accounts, BlockEntries(made.value), []);
    }
  }

  /** Sealed, refused, broken off, not stored or not begun: the state stays sound. */
  lemma SealKeepsSound(hashOf: Body -> string, n: Node, start: int, end: int, db: Db)
    requires Sound(n)
    ensures Sound(SealAttempt(hashOf, n, start, end, db))
  {
    var m := SealAttempt(hashOf, n, start, end, db);
    if m != n {
      SealKeepsMark(hashOf, n, start, end, db);
      assert m.mempool == [];
      EmptyQueueIsSound(m);
    }
  }

  lemma NextIsSound(hashOf: Body -> string, n: Node, step: Step)
    requires Sound(n) && (step.Activate? ==> step.row.address != TREASURY)
    ensures Sound(Next(hashOf, n, step))
  {
    match step
    case Transfer(tx) =>
      if QueueTransaction(n, tx).Success? {
        TransferKeepsSound(n, tx);
      }
    case BridgeCredit(r, amount, memoHash, now, id) =>
      if QueueBridgeCredit(n, r, amount, memoHash, now, id).Success? {
        BridgeCreditKeepsSound(n, r, amount, memoHash, now, id);
      }
    case Activate(row) => ActivateKeepsSound(n, row);
    case SealBlock(start, end, db) => SealKeepsSound(hashOf, n, start, end, db);
  }

  /** Main result: every reachable state is sound, whether calls succeed or fail. In particular
      each sender can always pay for all it has queued, and its queued nonces have no gap. */
  lemma {:induction false} RunIsSound(hashOf: Body -> string, n: Node, steps: seq<Step>)
    requires Sound(n) && OrdinarySteps(steps)
    ensures Sound(Run(hashOf, n, steps))
    decreases |steps|
  {
    if steps != [] {
      var before, step := steps[..|steps| - 1], steps[|steps| - 1];
      RunIsSound(hashOf, n, before);
      NextIsSound(hashOf, Run(hashOf, n, before), step);
    }
  }

  lemma SortedQueueIsReady(accounts: Accounts, queue: seq<Tx>)
    requires Covered(accounts, queue) && AllQueuedTx(queue) && Supply(accounts) <= U64_MAX
    ensures var txs := SortForBlock(queue);
      && Covered(accounts, txs) && PositiveTxs(txs) && SeqSum(txs, Fee()) <= U64_MAX
      && ((forall i :: 0 <= i < |queue| ==> ValidMemo(queue[i].memo)) <==> forall i :: 0 <= i < |txs| ==> Valid(txs[i]))
  {
    var txs := SortForBlock(queue);
    SortedQueue(queue);
    SameTransfersSameFees(txs, queue);
    forall i | 0 <= i < |txs| ensures txs[i].Debit() > 0 {
      SortedMember(queue, i);
    }
    QueuedArePositive(queue);
    FeesWithinPending(accounts, queue);
    forall a ensures Pending(txs, a) <= Balance(accounts, a) {
      assert Pending(queue, a) <= Balance(accounts, a);
    }
    MemosInAnyOrder(queue, txs);
  }

  lemma BuiltIff(hashOf: Body -> string, n: Node, start: int, end: int)
    requires Sound(n) && Supply(n.accounts) <= U64_MAX
    ensures
      var txs := SortForBlock(n.mempool);
      var made := NewBlock(hashOf, NextHeight(n.blocks), start, end, TipHash(n.blocks), txs, n.miners);
      && (made.Success? <==> start < end && forall i :: 0 <= i < |n.mempool| ==> ValidMemo(n.mempool[i].memo))
      && (made.Success? ==> Covered(n.accounts, made.value.body.txs) && PositiveTxs(made.value.body.txs))
  {
    SortedQueueIsReady(n.accounts, n.mempool);
  }

  /** Main result: from a sound state whose supply fits 64 bits, sealing can only fail over
      an empty window or a bridge memo that `validate` refuses; otherwise it succeeds,
      empties the queue and leaves the supply unchanged. */
  lemma SealSucceeds(hashOf: Body -> string, n: Node, start: int, end: int)
    requires Sound(n) && Supply(n.accounts) <= U64_MAX
    ensures Seal(hashOf, n, start, end).Success? <==>
            start < end && forall i :: 0 <= i < |n.mempool| ==> ValidMemo(n.mempool[i].memo)
    ensures Seal(hashOf, n, start, end).Success? ==>
              && Seal(hashOf, n, start, end).value.mempool == []
              && Supply(Seal(hashOf, n, start, end).value.accounts) == Supply(n.accounts)
  {
    var made := NewBlock(hashOf, NextHeight(n.blocks), start, end, TipHash(n.blocks), SortForBlock(n.mempool),
      n.miners);
    BuiltIff(hashOf, n, start, end);
    if made.Success? {
      CoveredBlockApplies(n.accounts, made.value);
    }
  }

  /** A block is appended if and only if, besides, the database stores it; the queue is empty
      afterwards unless the database could not be read, and then nothing has changed. */
  lemma SealAppendsIff(hashOf: Body -> string, n: Node, start: int, end: int, db: Db)
    requires Sound(n) && Supply(n.accounts) <= U64_MAX
    ensures
      var m := SealAttempt(hashOf, n, start, end, db);
      && m == (if db.Unread? then n else m.(mempool := []))
      && n.blocks <= m.blocks
      && (|m.blocks| == |n.blocks| + 1 <==>
            db.Stores? && start < end && forall i :: 0 <= i < |n.mempool| ==> ValidMemo(n.mempool[i].memo))
      && |m.blocks| <= |n.blocks| + 1
  {
    SealSucceeds(hashOf, n, start, end);
  }

  lemma MemosInAnyOrder(queue: seq<Tx>, txs: seq<Tx>)
    requires multiset(queue) == multiset(txs) && AllQueuedTx(queue)
    ensures (forall i :: 0 <= i < |queue| ==> ValidMemo(queue[i].memo)) <==>
            forall i :: 0 <= i < |txs| ==> Valid(txs[i])
  {
    forall i | 0 <= i < |queue| ensures queue[i] in txs {
      assert queue[i] in multiset(txs);
    }
    forall i | 0 <= i < |txs| ensures txs[i] in queue {
      assert txs[i] in multiset(queue);
    }
  }
}
