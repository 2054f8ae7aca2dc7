/** What the queue accepts (src/transaction.rs:172-250, src/state.rs:824-944, 1050-1124), as plain conditions
    on the transaction and the node, and what that keeps over every run: nothing is sealed that was
    signed for another chain. */
module Acceptance {
  import opened Ledger
  import opened Mempool
  import Runs
  import Text

  predicate IsWallet(a: string) {
    && |a| == 40 && a[..4] == "ANET"
    && forall i :: 4 <= i < 40 ==> 48 <= a[i] as int <= 57 || 65 <= a[i] as int <= 70
  }

  /** At most 160 characters, no control character but tab, line feed and carriage return. */
  predicate IsMemo(memo: string) {
    |memo| <= 160 && forall i :: 0 <= i < |memo| ==>
                                   var n := memo[i] as int; n in {9, 10, 13} || 32 <= n <= 126 || 160 <= n
  }

  /** What is asked of every transaction. */
  predicate IsTransfer(tx: Tx) {
    && IsWallet(tx.from) && IsWallet(tx.to) && tx.from != tx.to
    && tx.amount > 0 && tx.fee >= 1_000 && IsMemo(tx.memo)
  }

  lemma ValidBasicIs(tx: Tx)
    ensures ValidBasic(tx) <==> IsTransfer(tx)
  {
    Text.ValidWalletIs(tx.from);
    Text.ValidWalletIs(tx.to);
    MemoIs(tx.memo);
  }

  lemma MemoIs(memo: string)
    ensures ValidMemo(memo) <==> IsMemo(memo)
  {
  }

  /** Whether a transaction may be in a block. */
  lemma ValidIs(tx: Tx)
    ensures Valid(tx) <==> IsTransfer(tx) && (tx.auth.Legacy? || tx.auth.genuine)
  {
    ValidBasicIs(tx);
  }

  predicate MayTransact(n: Node, a: Address) {
    a in n.accounts && (a in n.funded || n.accounts[a].sessions >= 1_000)
  }

  /** What the queue already takes from one address. */
  function Owed(queue: seq<Tx>, a: Address): nat {
    if queue == [] then 0
    else (if queue[0].from == a then queue[0].amount + queue[0].fee else 0) + Owed(queue[1..], a)
  }

  lemma {:induction false} OwedIs(queue: seq<Tx>, a: Address)
    ensures Pending(queue, a) == Owed(queue, a)
  {
    if queue != [] {
      OwedIs(queue[1..], a);
    }
  }

  predicate Holds(queue: seq<Tx>, a: Address, nonce: int) {
    exists i :: 0 <= i < |queue| && queue[i].from == a && queue[i].nonce == nonce
  }

  /** The next nonce: the least above the committed one that is not queued. */
  ghost predicate IsNext(queue: seq<Tx>, a: Address, committed: int, nonce: int) {
    && committed < nonce && !Holds(queue, a, nonce)
    && forall m :: committed < m < nonce ==> Holds(queue, a, m)
  }

  lemma NextIs(queue: seq<Tx>, a: Address, committed: u64, nonce: u64)
    ensures LeastFreeNonce(queue, a, committed, nonce) <==> IsNext(queue, a, committed, nonce)
  {
    forall m: u64 ensures NonceQueued(queue, a, m) <==> Holds(queue, a, m) {
    }
    if LeastFreeNonce(queue, a, committed, nonce) {
      forall m | committed < m < nonce ensures Holds(queue, a, m) {
        var k: u64 := m;
        assert NonceQueued(queue, a, k);
      }
    }
  }

  /** Main result: a transaction is queued if and only if it is a proper transfer, genuinely signed for this
      chain with a positive nonce, the queue holds fewer than 10000, both parties may transact, its
      nonce is the sender's next one, its id is new, and the sender owns what it takes besides what
      the queue takes already. The queue then ends with it and nothing else changes. */
  lemma AcceptedIff(n: Node, tx: Tx)
    ensures QueueTransaction(n, tx).Success? <==>
            && IsTransfer(tx)
            && tx.auth.Signed? && tx.auth.genuine && tx.nonce >= 1
            && Text.Trim(tx.chainId) == Text.Trim(n.chainId)
            && |n.mempool| < 10_000
            && MayTransact(n, tx.from) && MayTransact(n, tx.to)
            && IsNext(n.mempool, tx.from, if tx.from in n.nonces then n.nonces[tx.from] else 0, tx.nonce)
            && (forall i :: 0 <= i < |n.mempool| ==> n.mempool[i].id != tx.id)
            && Owed(n.mempool, tx.from) + tx.amount + tx.fee <= n.accounts[tx.from].ants
    ensures QueueTransaction(n, tx).Success? ==> QueueTransaction(n, tx).value == n.(mempool := n.mempool + [tx])
  {
    ValidBasicIs(tx);
    OwedIs(n.mempool, tx.from);
    NextIs(n.mempool, tx.from, Nonce(n.nonces, tx.from), tx.nonce);
  }

  /** Main result: a bridge credit is queued if and only if it is positive, its recipient is a wallet other
      than the treasury, and amount and fee still fit the treasury's balance. The treasury is given
      both first, the transaction pays the recipient with the least fee and nonce 0, and the
      recipient counts as funded. */
  lemma CreditedIff(n: Node, to: Address, amount: u64, hash: string, now: int, id: string)
    ensures
      var r, treasury := QueueBridgeCredit(n, to, amount, hash, now, id), "ANET000000000000000000000000000000000000";
      var was := if treasury in n.accounts then n.accounts[treasury] else Account(0, 0, 0, 0, map[]);
      && (r.Success? <==>
            && amount > 0 && IsWallet(to) && to != treasury
            && was.ants + amount + 1_000 <= 0xFFFF_FFFF_FFFF_FFFF)
      && (r.Success? ==>
            r.value == n.(
            accounts := n.accounts[treasury := was.(ants := was.ants + amount + 1_000)],
            mempool := n.mempool +
              [Tx(treasury, to, amount, 1_000, 0, "bridge:evm:" + hash, now, n.chainId, Legacy, id)],
            funded := n.funded + {to}))
  {
    Text.ValidWalletIs(to);
  }

  // --- over runs -----------------------------------------------------------------

  /** Made for this chain, and signed by its sender if it is signed at all. */
  predicate ForChain(tx: Tx, chainId: string) {
    Text.Trim(tx.chainId) == Text.Trim(chainId) && (tx.auth.Signed? ==> tx.auth.genuine && tx.nonce >= 1)
  }

  predicate AllForChain(txs: seq<Tx>, chainId: string) {
    forall i :: 0 <= i < |txs| ==> ForChain(txs[i], chainId)
  }

  /** The queue, and every block beyond the first `from`. */
  predicate Bound(n: Node, from: nat) {
    && AllForChain(n.mempool, n.chainId)
    && forall i :: from <= i < |n.blocks| ==> AllForChain(n.blocks[i].body.txs, n.chainId)
  }

  lemma SealStaysBound(hashOf: Body -> string, n: Node, start: int, end: int, from: nat)
    requires Bound(n, from) && Seal(hashOf, n, start, end).Success?
    ensures Bound(Seal(hashOf, n, start, end).value, from)
  {
    var b := Runs.SealAppends(hashOf, n, start, end);
    forall i | 0 <= i < |b.body.txs| ensures ForChain(b.body.txs[i], n.chainId) {
      Runs.SortedMember(n.mempool, i);
    }
  }

  lemma UnsealedStaysBound(hashOf: Body -> string, n: Node, step: Runs.Step, from: nat)
    requires Bound(n, from) && step.SealBlock?
    requires !(step.db.Stores? && Seal(hashOf, n, step.start, step.end).Success?)
    ensures Bound(Runs.Next(hashOf, n, step), from) && Runs.Next(hashOf, n, step).chainId == n.chainId
  {
  }

  lemma StepStaysBound(hashOf: Body -> string, n: Node, step: Runs.Step, from: nat)
    requires Bound(n, from)
    ensures Bound(Runs.Next(hashOf, n, step), from) && Runs.Next(hashOf, n, step).chainId == n.chainId
  {
    match step
    case Transfer(tx) => AcceptedIff(n, tx);
    case BridgeCredit(_, _, _, _, _) =>
    case Activate(_) =>
    case SealBlock(start, end, db) =>
      if db.Stores? && Seal(hashOf, n, start, end).Success? {
        SealStaysBound(hashOf, n, start, end, from);
      } else {
        UnsealedStaysBound(hashOf, n, step, from);
      }
  }

  /** Main result: over any run of calls, whatever each returns, everything queued and everything sealed names
      the node's own chain, and whatever is signed is signed by its sender. */
  lemma {:induction false} RunStaysBound(hashOf: Body -> string, n: Node, steps: seq<Runs.Step>)
    requires AllForChain(n.mempool, n.chainId)
    ensures Bound(Runs.Run(hashOf, n, steps), |n.blocks|) && Runs.Run(hashOf, n, steps).chainId == n.chainId
    decreases |steps|
  {
    if steps != [] {
      var before, step := steps[..|steps| - 1], steps[|steps| - 1];
      RunStaysBound(hashOf, n, before);
      StepStaysBound(hashOf, Runs.Run(hashOf, n, before), step, |n.blocks|);
    }
  }
}
