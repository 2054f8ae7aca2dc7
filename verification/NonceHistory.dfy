/** Rebuilding nonces from stored blocks (src/state.rs:2374-2401).

    The block sort looks at timestamps before nonces, so a sealed chain reloads only if
    each sender's timestamps follow its nonces; this is proved to be the exact condition. */
module NonceHistory {
  import opened Wrappers
  import opened Ledger
  import opened Mempool
  import opened Ordering
  import opened Runs
  import Text

  type Nonces = map<Address, u64>

  function RebuildStep(nonces: Nonces, tx: Tx): Option<Nonces> {
    if tx.nonce == 0 then Some(nonces)
    else if tx.nonce != Nonce(nonces, tx.from) + 1 then None
    else Some(nonces[tx.from := tx.nonce])
  }

  /** `rebuild_account_nonces` over a list of transactions; None is its error. */
  function Rebuild(start: Nonces, txs: seq<Tx>): Option<Nonces> {
    if txs == [] then Some(start)
    else
      var before := Rebuild(start, txs[..|txs| - 1]);
      if before.None? then None else RebuildStep(before.value, txs[|txs| - 1])
  }

  function ChainTxs(blocks: seq<Block>): seq<Tx> {
    if blocks == [] then [] else ChainTxs(blocks[..|blocks| - 1]) + blocks[|blocks| - 1].body.txs
  }

  ghost predicate Agree(live: Nonces, rebuilt: Nonces) {
    forall a :: Nonce(live, a) == Nonce(rebuilt, a)
  }

  lemma {:induction false} RebuildConcat(start: Nonces, xs: seq<Tx>, ys: seq<Tx>)
    ensures Rebuild(start, xs + ys) ==
      if Rebuild(start, xs).None? then None else Rebuild(Rebuild(start, xs).value, ys)
    decreases |ys|
  {
    if ys == [] {
      assert xs + ys == xs;
    } else {
      var all := xs + ys;
      assert all[..|all| - 1] == xs + ys[..|ys| - 1];
      RebuildConcat(start, xs, ys[..|ys| - 1]);
    }
  }

  /** In block order each signing sender's nonces rise. */
  ghost predicate RisingNonces(txs: seq<Tx>) {
    forall i, j :: 0 <= i < j < |txs| && txs[i].from == txs[j].from != TREASURY ==> txs[i].nonce < txs[j].nonce
  }

  /** What a caller can check before sealing. */
  ghost predicate TimestampsFollowNonces(txs: seq<Tx>) {
    forall x, y :: x in txs && y in txs && x.from == y.from != TREASURY && x.nonce < y.nonce ==>
      x.timestamp <= y.timestamp
  }

  /** Gaplessness without positions, so that it survives sorting. */
  ghost predicate FilledNonces(txs: seq<Tx>, nonces: Nonces) {
    && (forall y :: y in txs && y.from != TREASURY ==> y.nonce > Nonce(nonces, y.from))
    && (forall y, m: u64 :: y in txs && y.from != TREASURY && Nonce(nonces, y.from) < m < y.nonce
                            ==> NonceQueued(txs, y.from, m))
  }

  lemma GaplessInAnyOrder(xs: seq<Tx>, ys: seq<Tx>, nonces: Nonces)
    requires multiset(xs) == multiset(ys) && GaplessNonces(xs, nonces)
    ensures FilledNonces(ys, nonces)
  {
    forall y | y in ys ensures y in xs {
      assert y in multiset(xs);
    }
    forall y, m: u64 | y in ys && y.from != TREASURY && Nonce(nonces, y.from) < m < y.nonce
      ensures NonceQueued(ys, y.from, m)
    {
      var i :| 0 <= i < |xs| && xs[i] == y;
      assert NonceQueued(xs, xs[i].from, m);
      var k :| 0 <= k < |xs| && xs[k].from == y.from && xs[k].nonce == m;
      assert xs[k] in multiset(ys);
      var l :| 0 <= l < |ys| && ys[l] == xs[k];
    }
  }

  ghost predicate DistinctNonces(txs: seq<Tx>) {
    forall i, j :: 0 <= i < j < |txs| && txs[i].from == txs[j].from != TREASURY ==> txs[i].nonce != txs[j].nonce
  }

  lemma {:induction false} DistinctInAnyOrder(xs: seq<Tx>, ys: seq<Tx>)
    requires multiset(xs) == multiset(ys) && DistinctNonces(xs)
    ensures DistinctNonces(ys)
  {
    forall i, j | 0 <= i < j < |ys| && ys[i].from == ys[j].from != TREASURY
      ensures ys[i].nonce != ys[j].nonce
    {
      if ys[i].nonce == ys[j].nonce {
        assert ys[i] in multiset(xs) && ys[j] in multiset(xs);
        var k :| 0 <= k < |xs| && xs[k] == ys[i];
        var l :| 0 <= l < |xs| && xs[l] == ys[j];
        assert k == l;
        TwiceInOneOnceInOther(ys, i, j, xs, k);
      }
    }
  }

  /** Two places holding the same element need two places in any rearrangement. */
  lemma TwiceInOneOnceInOther(ys: seq<Tx>, i: nat, j: nat, xs: seq<Tx>, k: nat)
    requires i < j < |ys| && k < |xs| && ys[i] == ys[j] == xs[k]
    requires multiset(xs) == multiset(ys)
    ensures exists l :: 0 <= l < |xs| && l != k && xs[l] == xs[k]
  {
    var x := xs[k];
    assert ys == ys[..i] + [x] + ys[i + 1..];
    var rest := ys[i + 1..];
    assert rest[j - i - 1] == x;
    assert multiset(ys)[x] >= 1 + multiset(rest)[x] >= 2;
    assert xs == xs[..k] + [x] + xs[k + 1..];
    assert multiset(xs)[x] == multiset(xs[..k])[x] + 1 + multiset(xs[k + 1..])[x];
    if x in xs[..k] {
      var l :| 0 <= l < k && xs[..k][l] == x;
    } else {
      assert x in multiset(xs[k + 1..]);
      var l :| 0 <= l < |xs[k + 1..]| && xs[k + 1..][l] == x;
      assert xs[k + 1 + l] == x;
    }
  }

  lemma OrderedStampsRise(queue: seq<Tx>, txs: seq<Tx>)
    requires SortedBy(txs, TxBefore) && multiset(txs) == multiset(queue)
    requires DistinctNonces(txs) && TimestampsFollowNonces(queue)
    ensures RisingNonces(txs)
  {
    forall i, j | 0 <= i < j < |txs| && txs[i].from == txs[j].from != TREASURY
      ensures txs[i].nonce < txs[j].nonce
    {
      assert txs[i] in multiset(queue) && txs[j] in multiset(queue);
      assert TxBefore(txs[i], txs[j]);
    }
  }

  lemma RisingMeansOrderedStamps(queue: seq<Tx>, txs: seq<Tx>)
    requires SortedBy(txs, TxBefore) && multiset(txs) == multiset(queue)
    requires RisingNonces(txs)
    ensures TimestampsFollowNonces(queue)
  {
    forall x, y | x in queue && y in queue && x.from == y.from != TREASURY && x.nonce < y.nonce
      ensures x.timestamp <= y.timestamp
    {
      assert x in multiset(txs) && y in multiset(txs);
      var i :| 0 <= i < |txs| && txs[i] == x;
      var j :| 0 <= j < |txs| && txs[j] == y;
      assert TxBefore(txs[i], txs[j]);
    }
  }

  /** Sorting by timestamp puts each sender's nonces in order exactly when its
      timestamps follow its nonces. */
  lemma RisingIffTimestampsFollow(queue: seq<Tx>, nonces: Nonces)
    requires GaplessNonces(queue, nonces)
    ensures RisingNonces(SortForBlock(queue)) <==> TimestampsFollowNonces(queue)
  {
    var txs := SortForBlock(queue);
    SortedQueue(queue);
    DistinctInAnyOrder(queue, txs);
    if TimestampsFollowNonces(queue) {
      OrderedStampsRise(queue, txs);
    }
    if RisingNonces(txs) {
      RisingMeansOrderedStamps(queue, txs);
    }
  }

  /** Transaction `i` is the last one of `a`. */
  predicate LastOf(txs: seq<Tx>, a: Address, i: int) {
    0 <= i < |txs| && txs[i].from == a && forall j :: i < j < |txs| ==> txs[j].from != a
  }

  /** The committed nonce after a prefix is the sender's last nonce in it. */
  lemma {:induction false} LastNonceWins(nonces: Nonces, txs: seq<Tx>, a: Address)
    ensures
      || (Nonce(CommitNonces(nonces, txs), a) == Nonce(nonces, a) && forall i :: 0 <= i < |txs| ==> txs[i].from != a)
      || exists i :: LastOf(txs, a, i) && txs[i].nonce == Nonce(CommitNonces(nonces, txs), a)
  {
    if txs != [] {
      var before, n := txs[..|txs| - 1], |txs| - 1;
      LastNonceWins(nonces, before, a);
      if txs[n].from == a {
        assert LastOf(txs, a, n);
      } else if i :| LastOf(before, a, i) && before[i].nonce == Nonce(CommitNonces(nonces, before), a) {
        assert before[i] == txs[i];
        assert LastOf(txs, a, i) by {
          forall j | i < j < |txs| ensures txs[j].from != a {
            if j < n {
              assert before[j] == txs[j];
            }
          }
        }
      }
    }
  }

  /** Rising nonces below the first free one: nothing of the sender came before. */
  lemma FirstNonceIsExpected(nonces: Nonces, txs: seq<Tx>, k: nat)
    requires k < |txs| && txs[k].from != TREASURY && RisingNonces(txs) && FilledNonces(txs, nonces)
    requires txs[k].nonce == Nonce(nonces, txs[k].from) + 1
    ensures Nonce(CommitNonces(nonces, txs[..k]), txs[k].from) == Nonce(nonces, txs[k].from)
  {
    var before, a := txs[..k], txs[k].from;
    forall i | 0 <= i < k ensures before[i].from != a {
      assert before[i] == txs[i] && txs[i] in txs;
    }
    LastNonceWins(nonces, before, a);
  }

  lemma PredecessorIsLast(nonces: Nonces, txs: seq<Tx>, k: nat, p: nat)
    requires k < |txs| && txs[k].from != TREASURY && RisingNonces(txs)
    requires p < k && txs[p].from == txs[k].from && txs[p].nonce == txs[k].nonce - 1
    ensures Nonce(CommitNonces(nonces, txs[..k]), txs[k].from) == txs[p].nonce
  {
    var before, a := txs[..k], txs[k].from;
    assert before[p] == txs[p];
    LastNonceWins(nonces, before, a);
    var i :| LastOf(before, a, i) && before[i].nonce == Nonce(CommitNonces(nonces, before), a);
    assert before[i] == txs[i] && p <= i;
  }

  /** The next transaction of a sender carries its next nonce. */
  lemma NextNonceIsExpected(nonces: Nonces, txs: seq<Tx>, k: nat)
    requires k < |txs| && txs[k].from != TREASURY && RisingNonces(txs) && FilledNonces(txs, nonces)
    ensures txs[k].nonce == Nonce(CommitNonces(nonces, txs[..k]), txs[k].from) + 1
  {
    var tx, c := txs[k], Nonce(nonces, txs[k].from);
    assert tx in txs;
    if tx.nonce == c + 1 {
      FirstNonceIsExpected(nonces, txs, k);
    } else {
      assert NonceQueued(txs, tx.from, tx.nonce - 1);
      var p :| 0 <= p < |txs| && txs[p].from == tx.from && txs[p].nonce == tx.nonce - 1;
      PredecessorIsLast(nonces, txs, k, p);
    }
  }

  lemma ExpectedNonceAgrees(live: Nonces, rebuilt: Nonces, tx: Tx)
    requires Agree(live, rebuilt) && QueuedTx(tx)
    requires if tx.from == TREASURY then Nonce(live, TREASURY) == 0 else tx.nonce == Nonce(live, tx.from) + 1
    ensures RebuildStep(rebuilt, tx).Some?
    ensures Agree(live[tx.from := tx.nonce], RebuildStep(rebuilt, tx).value)
  {
    assert Nonce(live, tx.from) == Nonce(rebuilt, tx.from);
    var next := RebuildStep(rebuilt, tx).value;
    forall a ensures Nonce(live[tx.from := tx.nonce], a) == Nonce(next, a) {
      assert Nonce(live, a) == Nonce(rebuilt, a);
    }
  }

  lemma PrefixStep(nonces: Nonces, txs: seq<Tx>, k: nat)
    requires k < |txs|
    ensures CommitNonces(nonces, txs[..k + 1]) == CommitNonces(nonces, txs[..k])[txs[k].from := txs[k].nonce]
    ensures Rebuild(nonces, txs[..k + 1]) ==
      if Rebuild(nonces, txs[..k]).None? then None else RebuildStep(Rebuild(nonces, txs[..k]).value, txs[k])
  {
    var upTo := txs[..k + 1];
    assert upTo[..|upTo| - 1] == txs[..k];
  }

  lemma ExpectedAtPrefix(live: Nonces, txs: seq<Tx>, k: nat)
    requires k < |txs| && RisingNonces(txs) && AllQueuedTx(txs) && FilledNonces(txs, live)
    requires Nonce(live, TREASURY) == 0
    ensures var committed := CommitNonces(live, txs[..k]);
      if txs[k].from == TREASURY then Nonce(committed, TREASURY) == 0
      else txs[k].nonce == Nonce(committed, txs[k].from) + 1
  {
    if txs[k].from == TREASURY {
      CommittedTreasuryNonce(live, txs[..k]);
    } else {
      NextNonceIsExpected(live, txs, k);
    }
  }

  ghost predicate RebuiltUpTo(live: Nonces, rebuilt: Nonces, txs: seq<Tx>, k: nat)
    requires k <= |txs|
  {
    Rebuild(rebuilt, txs[..k]).Some? && Agree(CommitNonces(live, txs[..k]), Rebuild(rebuilt, txs[..k]).value)
  }

  lemma RebuiltOneFurther(live: Nonces, rebuilt: Nonces, txs: seq<Tx>, k: nat)
    requires k < |txs| && RisingNonces(txs) && AllQueuedTx(txs) && FilledNonces(txs, live)
    requires Nonce(live, TREASURY) == 0 && RebuiltUpTo(live, rebuilt, txs, k)
    ensures RebuiltUpTo(live, rebuilt, txs, k + 1)
  {
    ExpectedAtPrefix(live, txs, k);
    assert QueuedTx(txs[k]);
    ExpectedNonceAgrees(CommitNonces(live, txs[..k]), Rebuild(rebuilt, txs[..k]).value, txs[k]);
    PrefixStep(live, txs, k);
    PrefixStep(rebuilt, txs, k);
  }

  lemma {:induction false} RisingRebuilds(live: Nonces, rebuilt: Nonces, txs: seq<Tx>, k: nat)
    requires k <= |txs| && RisingNonces(txs) && AllQueuedTx(txs) && FilledNonces(txs, live)
    requires Agree(live, rebuilt) && Nonce(live, TREASURY) == 0
    ensures RebuiltUpTo(live, rebuilt, txs, k)
  {
    if k > 0 {
      RisingRebuilds(live, rebuilt, txs, k - 1);
      RebuiltOneFurther(live, rebuilt, txs, k - 1);
    }
  }

  lemma {:induction false} RebuiltNoncesBound(start: Nonces, txs: seq<Tx>, i: nat)
    requires Rebuild(start, txs).Some? && i < |txs|
    ensures txs[i].nonce <= Nonce(Rebuild(start, txs).value, txs[i].from)
  {
    var before, tx := txs[..|txs| - 1], txs[|txs| - 1];
    var r := Rebuild(start, before).value;
    assert RebuildStep(r, tx).Some?;
    if i < |before| {
      RebuiltNoncesBound(start, before, i);
      assert before[i] == txs[i];
    }
  }

  /** A rebuild that succeeds has seen every sender's nonces rise. */
  lemma {:induction false} RebuiltNoncesRise(start: Nonces, txs: seq<Tx>, i: nat, j: nat)
    requires Rebuild(start, txs).Some? && AllQueuedTx(txs)
    requires i < j < |txs| && txs[i].from == txs[j].from != TREASURY
    ensures txs[i].nonce < txs[j].nonce
  {
    var before := txs[..|txs| - 1];
    if j < |before| {
      RebuiltNoncesRise(start, before, i, j);
    } else {
      RebuiltNoncesBound(start, before, i);
      assert QueuedTx(txs[j]);
    }
  }

  lemma SortedQueueReloads(queue: seq<Tx>, live: Nonces, rebuilt: Nonces)
    requires AllQueuedTx(queue) && GaplessNonces(queue, live)
    requires Agree(live, rebuilt) && Nonce(live, TREASURY) == 0
    ensures Rebuild(rebuilt, SortForBlock(queue)).Some? <==> TimestampsFollowNonces(queue)
    ensures Rebuild(rebuilt, SortForBlock(queue)).Some? ==>
              Agree(CommitNonces(live, SortForBlock(queue)), Rebuild(rebuilt, SortForBlock(queue)).value)
  {
    var txs := SortForBlock(queue);
    SortedQueue(queue);
    forall i | 0 <= i < |txs| ensures QueuedTx(txs[i]) {
      SortedMember(queue, i);
    }
    RisingIffTimestampsFollow(queue, live);
    if RisingNonces(txs) {
      GaplessInAnyOrder(queue, txs, live);
      RisingRebuilds(live, rebuilt, txs, |txs|);
      assert txs[..|txs|] == txs;
    }
    if Rebuild(rebuilt, txs).Some? {
      forall i, j | 0 <= i < j < |txs| && txs[i].from == txs[j].from != TREASURY ensures txs[i].nonce < txs[j].nonce {
        RebuiltNoncesRise(rebuilt, txs, i, j);
      }
    }
  }

  /** The nonces a restart would rebuild exist and are the live ones. */
  ghost predicate Reloads(n: Node) {
    && Rebuild(map[], ChainTxs(n.blocks)).Some?
    && Agree(n.nonces, Rebuild(map[], ChainTxs(n.blocks)).value)
  }

  lemma SealedHistory(hashOf: Body -> string, n: Node, start: int, end: int)
    requires Seal(hashOf, n, start, end).Success?
    ensures
      var m := Seal(hashOf, n, start, end).value;
      && ChainTxs(m.blocks) == ChainTxs(n.blocks) + SortForBlock(n.mempool)
      && m.nonces == CommitNonces(n.nonces, SortForBlock(n.mempool))
  {
    var b := SealAppends(hashOf, n, start, end);
    assert (n.blocks + [b])[..|n.blocks + [b]| - 1] == n.blocks;
  }

  /** Main result: the chain extended by a seal reloads if and only if every sender's queued
      timestamps follow its nonces, and then the rebuilt nonces are again the live ones. */
  lemma SealedChainReloads(hashOf: Body -> string, n: Node, start: int, end: int)
    requires Sound(n) && Reloads(n) && Seal(hashOf, n, start, end).Success?
    ensures Rebuild(map[], ChainTxs(Seal(hashOf, n, start, end).value.blocks)).Some? <==>
        TimestampsFollowNonces(n.mempool)
    ensures TimestampsFollowNonces(n.mempool) ==> Reloads(Seal(hashOf, n, start, end).value)
  {
    SealedHistory(hashOf, n, start, end);
    RebuildConcat(map[], ChainTxs(n.blocks), SortForBlock(n.mempool));
    SortedQueueReloads(n.mempool, n.nonces, Rebuild(map[], ChainTxs(n.blocks)).value);
  }

  /** Clocks that run backwards do break a reload: the first nonce was stamped later. */
  lemma BackwardClockBreaksReload(x: Tx, y: Tx)
    requires x.from == y.from != TREASURY && x.nonce == 1 && y.nonce == 2
    requires x.timestamp == 10 && y.timestamp == 5
    ensures SortForBlock([x, y]) == [y, x]
    ensures Rebuild(map[], SortForBlock([x, y])) == None
  {
    assert [x, y][1..] == [y] && [y][1..] == [];
    assert Sort([y], TxBefore) == Insert(y, [], TxBefore) == [y];
    assert Insert(x, [], TxBefore) == [x];
    assert SortForBlock([x, y]) == Insert(x, [y], TxBefore) == [y] + Insert(x, [y][1..], TxBefore);
    assert [y, x][..1] == [y] && [y][..0] == [];
    assert Rebuild(map[], [y]) == None;
  }

  /** Nothing stops such a pair at the door: a sender with two fees and two ants may queue it. */
  lemma BackwardClockPairIsQueued(n: Node, a: Address, b: Address, h: string)
    requires Text.ValidWallet(a) && Text.ValidWallet(b) && a != b
    requires n.mempool == [] && Nonce(n.nonces, a) == 0
    requires Eligible(n, a) && Eligible(n, b) && Balance(n.accounts, a) >= 2_002
    ensures
      var x := Tx(a, b, 1, 1_000, 1, "", 10, n.chainId, Signed(h, true), "first");
      var y := x.(nonce := 2, timestamp := 5, id := "second");
      && QueueTransaction(n, x).Success?
      && QueueTransaction(QueueTransaction(n, x).value, y) == Success(n.(mempool := [x, y]))
  {
    var x := Tx(a, b, 1, 1_000, 1, "", 10, n.chainId, Signed(h, true), "first");
    var y := x.(nonce := 2, timestamp := 5, id := "second");
    assert "first"[0] != "second"[0];
    FirstIsQueued(n, x);
    SecondIsQueued(n.(mempool := [x]), x, y);
  }

  lemma FirstIsQueued(n: Node, x: Tx)
    requires n.mempool == [] && ValidForChain(x, n.chainId) && x.nonce == 1 && Nonce(n.nonces, x.from) == 0
    requires Eligible(n, x.from) && Eligible(n, x.to) && x.Debit() <= Balance(n.accounts, x.from)
    ensures QueueTransaction(n, x) == Success(n.(mempool := [x]))
  {
    assert Pending([], x.from) == 0 && LeastFreeNonce([], x.from, 0, 1) && [] + [x] == [x];
  }

  lemma SecondIsQueued(n: Node, x: Tx, y: Tx)
    requires n.mempool == [x] && ValidForChain(y, n.chainId) && x.from == y.from && x.nonce == 1 && y.nonce == 2
    requires Nonce(n.nonces, y.from) == 0 && x.id != y.id
    requires Eligible(n, y.from) && Eligible(n, y.to) && x.Debit() + y.Debit() <= Balance(n.accounts, y.from)
    ensures QueueTransaction(n, y) == Success(n.(mempool := [x, y]))
  {
    assert Pending([], y.from) == 0 && [] + [x] == [x];
    PendingAppend([], x, y.from);
    SecondNonceIsFree(x, y.from);
    assert Pending([x], y.from) == x.Debit() && !NonceQueued([x], y.from, 2);
    assert Rejection(n, y).None?;
    assert [x] + [y] == [x, y];
  }

  lemma SecondNonceIsFree(x: Tx, a: Address)
    requires x.from == a && x.nonce == 1
    ensures LeastFreeNonce([x], a, 0, 2)
  {
    assert [x][0].nonce == 1;
  }

  lemma UnstoredSeal(hashOf: Body -> string, n: Node, start: int, end: int)
    requires Seal(hashOf, n, start, end).Success?
    ensures var m := SealAttempt(hashOf, n, start, end, Refuses);
      m.blocks == n.blocks && m.nonces == CommitNonces(n.nonces, SortForBlock(n.mempool))
  {
  }

  predicate CreditsOnly(txs: seq<Tx>) {
    forall i :: 0 <= i < |txs| ==> txs[i].from == TREASURY
  }

  lemma SortedCreditsOnly(queue: seq<Tx>)
    ensures CreditsOnly(SortForBlock(queue)) <==> CreditsOnly(queue)
    ensures AllQueuedTx(queue) ==> AllQueuedTx(SortForBlock(queue))
  {
    var txs := SortForBlock(queue);
    SortedQueue(queue);
    forall i | 0 <= i < |queue| ensures queue[i] in txs {
      assert queue[i] in multiset(txs);
    }
    forall i | 0 <= i < |txs| ensures txs[i] in queue {
      SortedMember(queue, i);
    }
  }

  lemma SomeNonceMoves(nonces: Nonces, queue: seq<Tx>)
    requires GaplessNonces(queue, nonces) && !CreditsOnly(queue)
    ensures exists a :: Nonce(CommitNonces(nonces, SortForBlock(queue)), a) > Nonce(nonces, a)
  {
    var txs := SortForBlock(queue);
    SortedCreditsOnly(queue);
    forall i | 0 <= i < |txs| ensures txs[i] in queue {
      SortedMember(queue, i);
    }
    var i :| 0 <= i < |txs| && txs[i].from != TREASURY;
    SignedTxMovesNonce(nonces, txs, queue, txs[i].from);
  }

  /** A block the database refused has still moved the live nonces: they are the rebuilt ones
      again if and only if it held bridge credits only. */
  lemma UnstoredSealDiverges(hashOf: Body -> string, n: Node, start: int, end: int)
    requires Sound(n) && Reloads(n) && Seal(hashOf, n, start, end).Success?
    ensures Reloads(SealAttempt(hashOf, n, start, end, Refuses)) <==> CreditsOnly(n.mempool)
  {
    var rebuilt := Rebuild(map[], ChainTxs(n.blocks)).value;
    UnstoredSeal(hashOf, n, start, end);
    SortedCreditsOnly(n.mempool);
    if CreditsOnly(n.mempool) {
      CreditsMoveNoNonce(n.nonces, SortForBlock(n.mempool));
      AgreeTransitive(CommitNonces(n.nonces, SortForBlock(n.mempool)), n.nonces, rebuilt);
    } else {
      SomeNonceMoves(n.nonces, n.mempool);
      var a :| Nonce(CommitNonces(n.nonces, SortForBlock(n.mempool)), a) > Nonce(n.nonces, a);
      assert Nonce(n.nonces, a) == Nonce(rebuilt, a);
    }
  }

  lemma AgreeTransitive(x: Nonces, y: Nonces, z: Nonces)
    requires Agree(x, y) && Agree(y, z)
    ensures Agree(x, z)
  {
    forall a ensures Nonce(x, a) == Nonce(z, a) {
      assert Nonce(x, a) == Nonce(y, a);
    }
  }

  lemma SignedTxMovesNonce(nonces: Nonces, txs: seq<Tx>, queue: seq<Tx>, a: Address)
    requires GaplessNonces(queue, nonces) && forall i :: 0 <= i < |txs| ==> txs[i] in queue
    requires a != TREASURY && exists i :: 0 <= i < |txs| && txs[i].from == a
    ensures Nonce(CommitNonces(nonces, txs), a) > Nonce(nonces, a)
  {
    LastNonceWins(nonces, txs, a);
    var i :| LastOf(txs, a, i) && txs[i].nonce == Nonce(CommitNonces(nonces, txs), a);
    var k :| 0 <= k < |queue| && queue[k] == txs[i];
    assert queue[k].nonce > Nonce(nonces, queue[k].from);
  }

  lemma CreditsMoveNoNonce(nonces: Nonces, txs: seq<Tx>)
    requires AllQueuedTx(txs) && Nonce(nonces, TREASURY) == 0
    requires CreditsOnly(txs)
    ensures Agree(CommitNonces(nonces, txs), nonces)
  {
    CommittedTreasuryNonce(nonces, txs);
    forall a ensures Nonce(CommitNonces(nonces, txs), a) == Nonce(nonces, a) {
      LastNonceWins(nonces, txs, a);
    }
  }

  /** What a caller sees of every step: sealed timestamps follow nonces, and a block the database
      refuses holds bridge credits only. */
  ghost predicate OrderedSeals(hashOf: Body -> string, n: Node, steps: seq<Step>)
    decreases |steps|
  {
    steps == [] ||
    var before, step := steps[..|steps| - 1], steps[|steps| - 1];
    OrderedSeals(hashOf, n, before) && OrderedStep(hashOf, Run(hashOf, n, before), step)
  }

  ghost predicate OrderedStep(hashOf: Body -> string, n: Node, step: Step) {
    step.SealBlock? && !step.db.Unread? && Seal(hashOf, n, step.start, step.end).Success? ==>
      if step.db.Stores? then TimestampsFollowNonces(n.mempool)
      else CreditsOnly(n.mempool)
  }

  lemma OnlySealsChangeHistory(hashOf: Body -> string, n: Node, step: Step)
    requires Reloads(n) && (step.SealBlock? ==> step.db.Unread? || Seal(hashOf, n, step.start, step.end).Failure?)
    ensures Reloads(Next(hashOf, n, step))
  {
    var m := Next(hashOf, n, step);
    assert m.blocks == n.blocks && m.nonces == n.nonces;
  }

  /** One step keeps the reload if and only if it is an ordered one. */
  lemma StepReloadsIffOrdered(hashOf: Body -> string, n: Node, step: Step)
    requires Sound(n) && Reloads(n)
    ensures Reloads(Next(hashOf, n, step)) <==> OrderedStep(hashOf, n, step)
  {
    if step.SealBlock? && !step.db.Unread? && Seal(hashOf, n, step.start, step.end).Success? {
      if step.db.Stores? {
        SealedChainReloads(hashOf, n, step.start, step.end);
      } else {
        UnstoredSealDiverges(hashOf, n, step.start, step.end);
      }
    } else {
      OnlySealsChangeHistory(hashOf, n, step);
    }
  }

  /** Main result: in a run of such steps the stored chain always reloads with the live nonces. */
  lemma {:induction false} OrderedRunReloads(hashOf: Body -> string, n: Node, steps: seq<Step>)
    requires Sound(n) && Reloads(n) && OrdinarySteps(steps) && OrderedSeals(hashOf, n, steps)
    ensures Reloads(Run(hashOf, n, steps))
    decreases |steps|
  {
    if steps != [] {
      var before, step := steps[..|steps| - 1], steps[|steps| - 1];
      OrderedRunReloads(hashOf, n, before);
      RunIsSound(hashOf, n, before);
      StepReloadsIffOrdered(hashOf, Run(hashOf, n, before), step);
    }
  }

  lemma RebuildOneMore(start: Nonces, done: seq<Tx>, txs: seq<Tx>, i: nat)
    requires i < |txs| && Rebuild(start, done + txs[..i]).Some?
    ensures Rebuild(start, done + txs[..i + 1]) == RebuildStep(Rebuild(start, done + txs[..i]).value, txs[i])
  {
    var upTo := done + txs[..i + 1];
    assert upTo[..|upTo| - 1] == done + txs[..i];
  }

  /** One block's share of the loop below. */
  method RebuildFromBlock(start: Nonces, ghost done: seq<Tx>, txs: seq<Tx>) returns (r: Option<Nonces>)
    requires Rebuild(map[], done) == Some(start)
    ensures r == Rebuild(map[], done + txs)
  {
    r := Some(start);
    assert done + txs[..0] == done;
    for i := 0 to |txs|
      invariant r.Some? && r == Rebuild(map[], done + txs[..i])
    {
      var tx := txs[i];
      RebuildOneMore(map[], done, txs, i);
      if tx.nonce != 0 {
        if tx.nonce != Nonce(r.value, tx.from) + 1 {
          RebuildStaysNone(map[], done + txs[..i + 1], txs[i + 1..]);
          assert done + txs[..i + 1] + txs[i + 1..] == done + txs;
          return None;
        }
        r := Some(r.value[tx.from := tx.nonce]);
      }
    }
    assert txs[..|txs|] == txs;
  }

  /** `rebuild_account_nonces`. */
  method RebuildAccountNonces(blocks: seq<Block>) returns (r: Option<Nonces>)
    ensures r == Rebuild(map[], ChainTxs(blocks))
  {
    r := Some(map[]);
    for b := 0 to |blocks|
      invariant r.Some? && r == Rebuild(map[], ChainTxs(blocks[..b]))
    {
      r := RebuildFromBlock(r.value, ChainTxs(blocks[..b]), blocks[b].body.txs);
      assert blocks[..b + 1][..b] == blocks[..b];
      if r.None? {
        RebuildPrefixOfChain(blocks, b);
        return;
      }
    }
    assert blocks[..|blocks|] == blocks;
  }

  lemma RebuildStaysNone(start: Nonces, xs: seq<Tx>, ys: seq<Tx>)
    requires Rebuild(start, xs).None?
    ensures Rebuild(start, xs + ys).None?
  {
    RebuildConcat(start, xs, ys);
  }

  lemma {:induction false} RebuildPrefixOfChain(blocks: seq<Block>, b: nat)
    requires b < |blocks|
    requires Rebuild(map[], ChainTxs(blocks[..b]) + blocks[b].body.txs).None?
    ensures Rebuild(map[], ChainTxs(blocks)).None?
    decreases |blocks|
  {
    var before := blocks[..|blocks| - 1];
    if b == |before| {
      assert blocks[..b] == before;
    } else {
      assert before[..b] == blocks[..b];
      RebuildPrefixOfChain(before, b);
      RebuildStaysNone(map[], ChainTxs(before), blocks[|blocks| - 1].body.txs);
    }
  }
}
