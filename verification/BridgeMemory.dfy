/** What a running node remembers of bridge credits, against what a restart rebuilds from memos
    (src/rpc.rs:1822-1863, src/state.rs:2338-2372). The rebuild reads the memo of every transaction,
    whoever signed it, and only what was sealed. */
module BridgeMemory {
  import opened Wrappers
  import opened Ledger
  import opened Mempool
  import opened BridgeDedup
  import opened Text
  import NonceHistory
  import Runs

  /** The two sets: processed EVM hashes and bridge-funded recipients. */
  datatype Kind = Hashes | Recipients

  function Mark(k: Kind, tx: Tx): set<string> {
    if k.Hashes? then HashFound(tx) else RecipientFound(tx)
  }

  function Known(k: Kind, l: Live): set<string> {
    if k.Hashes? then l.processed else l.node.funded
  }

  function Rebuilt(k: Kind, txs: seq<Tx>): set<string> {
    if k.Hashes? then CollectHashes(txs) else CollectFunded(txs)
  }

  /** What the treasury credits of a queue will record. */
  function Credited(k: Kind, txs: seq<Tx>): set<string> {
    if txs == [] then {}
    else Credited(k, txs[..|txs| - 1]) + if TreasuryCredit(txs[|txs| - 1]) then Mark(k, txs[|txs| - 1]) else {}
  }

  /** What its other transactions will record, because their memos look alike. */
  function Stray(k: Kind, txs: seq<Tx>): set<string> {
    if txs == [] then {}
    else Stray(k, txs[..|txs| - 1]) + if TreasuryCredit(txs[|txs| - 1]) then {} else Mark(k, txs[|txs| - 1])
  }

  /** What the present process has lost in seals that failed, and sealed without crediting it. */
  datatype Memory = Memory(lost: set<string>, stray: set<string>)

  const FRESH := Memory({}, {})

  ghost function Track(hashOf: Body -> string, k: Kind, s: System, e: Event, m: Memory): Memory {
    match e
    case Request(_, _, _, _, _) => m
    case Submit(_) => m
    case SealBlock(start, end, db, crash) =>
      if s.live.None? || db.Unread? then m
      else
        var n := s.live.value.node;
        if db.Stores? && Seal(hashOf, n, start, end).Success? then m.(stray := m.stray + Stray(k, n.mempool))
        else m.(lost := m.lost + Credited(k, n.mempool))
    case Crash => FRESH
    case Restart(_, _) => if s.live.Some? then m else FRESH
  }

  ghost function TrackAll(hashOf: Body -> string, k: Kind, s: System, es: seq<Event>, m: Memory): Memory
    decreases es
  {
    if es == [] then m else TrackAll(hashOf, k, OnEvent(hashOf, s, es[0]), es[1..], Track(hashOf, k, s, es[0], m))
  }

  /** `known` is what the chain and the queue record, plus what was lost, less what strays added. */
  ghost predicate Remembers(k: Kind, known: set<string>, sealed: seq<Tx>, queue: seq<Tx>, m: Memory) {
    && known <= Rebuilt(k, sealed) + Credited(k, queue) + m.lost
    && Rebuilt(k, sealed) <= known + m.stray
    && Credited(k, queue) + m.lost <= known
    && m.stray <= Rebuilt(k, sealed)
  }

  ghost predicate Remembered(k: Kind, s: System, m: Memory) {
    s.live.Some? ==>
      var l := s.live.value;
      && l.node.blocks == s.durable
      && Remembers(k, Known(k, l), NonceHistory.ChainTxs(s.durable), l.node.mempool, m)
  }

  lemma OneMore(k: Kind, txs: seq<Tx>, tx: Tx)
    ensures Rebuilt(k, txs + [tx]) == Rebuilt(k, txs) + Mark(k, tx)
    ensures Credited(k, txs + [tx]) == Credited(k, txs) + if TreasuryCredit(tx) then Mark(k, tx) else {}
    ensures Stray(k, txs + [tx]) == Stray(k, txs) + if TreasuryCredit(tx) then {} else Mark(k, tx)
  {
    assert (txs + [tx])[..|txs + [tx]| - 1] == txs;
  }

  lemma {:induction false} RebuiltSplits(k: Kind, sealed: seq<Tx>, txs: seq<Tx>)
    ensures Rebuilt(k, sealed + txs) == Rebuilt(k, sealed) + Credited(k, txs) + Stray(k, txs)
    decreases |txs|
  {
    if txs == [] {
      assert sealed + txs == sealed;
    } else {
      var before, tx := txs[..|txs| - 1], txs[|txs| - 1];
      assert sealed + txs == (sealed + before) + [tx] && txs == before + [tx];
      OneMore(k, sealed + before, tx);
      OneMore(k, before, tx);
      RebuiltSplits(k, sealed, before);
    }
  }

  lemma {:induction false} CreditedOf(k: Kind, txs: seq<Tx>, x: string)
    ensures x in Credited(k, txs) <==> exists tx :: tx in txs && TreasuryCredit(tx) && x in Mark(k, tx)
    ensures x in Stray(k, txs) <==> exists tx :: tx in txs && !TreasuryCredit(tx) && x in Mark(k, tx)
    decreases |txs|
  {
    if txs != [] {
      var before, last := txs[..|txs| - 1], txs[|txs| - 1];
      assert txs == before + [last];
      CreditedOf(k, before, x);
    }
  }

  lemma AnyOrder(k: Kind, queue: seq<Tx>)
    ensures Credited(k, SortForBlock(queue)) == Credited(k, queue) && Stray(k, SortForBlock(queue)) == Stray(k, queue)
  {
    var txs := SortForBlock(queue);
    Runs.SortedQueue(queue);
    forall tx ensures tx in txs <==> tx in queue {
      assert tx in multiset(txs) <==> tx in multiset(queue);
    }
    forall x
      ensures x in Credited(k, txs) <==> x in Credited(k, queue)
      ensures x in Stray(k, txs) <==> x in Stray(k, queue)
    {
      CreditedOf(k, txs, x);
      CreditedOf(k, queue, x);
    }
  }

  /** An accepted clean request records its key and its recipient. */
  lemma RequestMarks(k: Kind, l: Live, rawHash: string, recipient: Address, amount: u64, now: int, id: string)
    requires CleanRequest(rawHash) && HandleRequest(l, rawHash, recipient, amount, now, id) != l
    ensures
      var after := HandleRequest(l, rawHash, recipient, amount, now, id);
      var tx := BridgeTx(recipient, amount, MemoHash(DedupKey(rawHash)), now, l.node.chainId, id);
      && after.node.blocks == l.node.blocks && after.node.mempool == l.node.mempool + [tx]
      && TreasuryCredit(tx) && Known(k, after) == Known(k, l) + Mark(k, tx)
  {
    var key := DedupKey(rawHash);
    KeySurvivesRestart(rawHash);
    LowerTwice(rawHash);
    WalletIsNormal(recipient);
    var memo := BRIDGE_CREDIT_MEMO_PREFIX + key;
    assert memo[|BRIDGE_CREDIT_MEMO_PREFIX|..] == key;
    KeySurvivesRestart(Trim(rawHash));
    assert MemoHash(key) == key;
  }

  lemma RequestRemembers(k: Kind, s: System, m: Memory, rawHash: string, recipient: Address, amount: u64, now: int,
                         id: string)
    requires Remembered(k, s, m) && s.live.Some? && CleanRequest(rawHash)
    ensures Remembered(k, s.(live := Some(HandleRequest(s.live.value, rawHash, recipient, amount, now, id))), m)
  {
    var l := s.live.value;
    if HandleRequest(l, rawHash, recipient, amount, now, id) != l {
      RequestMarks(k, l, rawHash, recipient, amount, now, id);
      OneMore(k, l.node.mempool, BridgeTx(recipient, amount, MemoHash(DedupKey(rawHash)), now, l.node.chainId, id));
    }
  }

  lemma SubmitRemembers(k: Kind, s: System, m: Memory, tx: Tx)
    requires Remembered(k, s, m) && s.live.Some? && QueueTransaction(s.live.value.node, tx).Success?
    ensures Remembered(k, s.(live := Some(s.live.value.(node := QueueTransaction(s.live.value.node, tx).value))), m)
  {
    var n := s.live.value.node;
    assert Rejection(n, tx).None? && tx.auth.Signed?;
    OneMore(k, n.mempool, tx);
  }

  lemma SealedSets(k: Kind, known: set<string>, sealed: seq<Tx>, queue: seq<Tx>, m: Memory)
    requires Remembers(k, known, sealed, queue, m)
    ensures Remembers(k, known, sealed + SortForBlock(queue), [], m.(stray := m.stray + Stray(k, queue)))
  {
    RebuiltSplits(k, sealed, SortForBlock(queue));
    AnyOrder(k, queue);
  }

  lemma LostSets(k: Kind, known: set<string>, sealed: seq<Tx>, queue: seq<Tx>, m: Memory)
    requires Remembers(k, known, sealed, queue, m)
    ensures Remembers(k, known, sealed, [], m.(lost := m.lost + Credited(k, queue)))
  {
  }

  lemma SealKeepsFunded(hashOf: Body -> string, n: Node, start: int, end: int, db: Db)
    ensures SealAttempt(hashOf, n, start, end, db).funded == n.funded
  {
  }

  lemma SealRemembers(hashOf: Body -> string, k: Kind, s: System, m: Memory, start: int, end: int, db: Db)
    requires Remembered(k, s, m) && s.live.Some?
    ensures
      var n := SealAttempt(hashOf, s.live.value.node, start, end, db);
      Remembered(k, s.(live := Some(s.live.value.(node := n)), durable := n.blocks),
                 Track(hashOf, k, s, SealBlock(start, end, db, false), m))
  {
    var n, sealed := s.live.value.node, NonceHistory.ChainTxs(s.durable);
    var known := Known(k, s.live.value);
    SealKeepsFunded(hashOf, n, start, end, db);
    if db.Unread? {
    } else if db.Stores? && Seal(hashOf, n, start, end).Success? {
      SealedTxs(hashOf, n, start, end);
      SealedSets(k, known, sealed, n.mempool, m);
    } else {
      FailedSealShape(hashOf, n, start, end);
      LostSets(k, known, sealed, n.mempool, m);
    }
  }

  lemma EventRemembers(hashOf: Body -> string, k: Kind, s: System, e: Event, m: Memory)
    requires Remembered(k, s, m) && (e.Request? ==> CleanRequest(e.rawHash))
    ensures Remembered(k, OnEvent(hashOf, s, e), Track(hashOf, k, s, e, m))
  {
    match e
    case Request(raw, r, amount, now, id) =>
      if s.live.Some? {
        RequestRemembers(k, s, m, raw, r, amount, now, id);
      }
    case Submit(tx) =>
      if s.live.Some? && QueueTransaction(s.live.value.node, tx).Success? {
        SubmitRemembers(k, s, m, tx);
      }
    case SealBlock(start, end, db, crash) =>
      if s.live.Some? {
        SealRemembers(hashOf, k, s, m, start, end, db);
      }
    case Crash =>
    case Restart(miners, chainId) =>
  }

  lemma {:induction false} RunRemembers(hashOf: Body -> string, k: Kind, s: System, es: seq<Event>, m: Memory)
    requires Remembered(k, s, m) && CleanEvents(es)
    ensures Remembered(k, OnEvents(hashOf, s, es), TrackAll(hashOf, k, s, es, m))
    decreases es
  {
    if es != [] {
      EventRemembers(hashOf, k, s, es[0], m);
      RunRemembers(hashOf, k, OnEvent(hashOf, s, es[0]), es[1..], Track(hashOf, k, s, es[0], m));
    }
  }

  /** Main result: over any run of clean requests, transfers, seals, crashes and restarts from a stopped
      node, the set a restart would rebuild is the live one if and only if every credit still
      queued or lost in a failed seal is recorded on the chain, and everything that memos of
      signed transfers recorded is known. */
  lemma RebuiltSetsAreLiveIff(hashOf: Body -> string, k: Kind, s: System, es: seq<Event>)
    requires s.live.None? && CleanEvents(es) && OnEvents(hashOf, s, es).live.Some?
    ensures
      var t, m := OnEvents(hashOf, s, es), TrackAll(hashOf, k, s, es, FRESH);
      var known, rebuilt := Known(k, t.live.value), Rebuilt(k, NonceHistory.ChainTxs(t.durable));
      known == rebuilt <==> Credited(k, t.live.value.node.mempool) + m.lost <= rebuilt && m.stray <= known
  {
    RunRemembers(hashOf, k, s, es, FRESH);
  }

  /** A signed transfer whose memo looks like a credit's acts as one after a restart: the hash in it is
      taken as processed, and its recipient as bridge-funded. */
  lemma LookalikeMemoActsAfterRestart(g: Accounts, blocks: seq<Block>, miners: seq<Address>, chainId: string, tx: Tx,
                                      rawHash: string, recipient: Address, amount: u64, now: int, id: string)
    requires Reload(g, blocks, miners, chainId).Some? && tx in NonceHistory.ChainTxs(blocks)
    requires BRIDGE_CREDIT_MEMO_PREFIX <= tx.memo && ValidWallet(tx.to)
    requires RecordedHash(tx) == DedupKey(rawHash) != ""
    ensures
      var l := Reload(g, blocks, miners, chainId).value;
      && HandleRequest(l, rawHash, recipient, amount, now, id) == l
      && tx.to in l.node.funded
  {
    var txs := NonceHistory.ChainTxs(blocks);
    forall k: Kind ensures Mark(k, tx) <= Rebuilt(k, txs) {
      RebuiltSplits(k, [], txs);
      assert [] + txs == txs;
      forall x | x in Mark(k, tx) ensures x in Rebuilt(k, txs) {
        CreditedOf(k, txs, x);
      }
    }
    assert Mark(Hashes, tx) <= Rebuilt(Hashes, txs) && Mark(Recipients, tx) <= Rebuilt(Recipients, txs);
    WalletIsNormal(tx.to);
  }

  /** `queue_bridge_credit` accepts the amount and the recipient. */
  predicate Payable(n: Node, recipient: Address, amount: u64) {
    && amount > 0 && ValidWallet(recipient) && recipient != TREASURY
    && Balance(n.accounts, TREASURY) + amount + MIN_FEE_ANTS <= U64_MAX
  }

  lemma LostIsKnown(hashOf: Body -> string, s: System, es: seq<Event>, h: string)
    requires s.live.None? && CleanEvents(es) && OnEvents(hashOf, s, es).live.Some?
    requires h in TrackAll(hashOf, Hashes, s, es, FRESH).lost
    ensures h in OnEvents(hashOf, s, es).live.value.processed
  {
    RunRemembers(hashOf, Hashes, s, es, FRESH);
  }

  lemma PayableIsCredited(l: Live, rawHash: string, recipient: Address, amount: u64, now: int, id: string)
    requires Payable(l.node, recipient, amount)
    ensures HandleRequest(l, rawHash, recipient, amount, now, id) != l <==> DedupKey(rawHash) !in l.processed
  {
  }

  /** Main result: a credit lost in a failed seal is still known, so its retry is answered without a
      credit for as long as the process lives; a restart forgets it, and then the retry is credited,
      if and only if no memo on the chain records it. */
  lemma LostCreditWaitsForRestart(hashOf: Body -> string, s: System, es: seq<Event>, rawHash: string,
                                  recipient: Address, amount: u64, now: int, id: string, miners: seq<Address>,
                                  chainId: string)
    requires s.live.None? && CleanEvents(es) && OnEvents(hashOf, s, es).live.Some?
    requires DedupKey(rawHash) in TrackAll(hashOf, Hashes, s, es, FRESH).lost
    ensures
      var t := OnEvents(hashOf, s, es);
      var reloaded := Reload(t.genesis, t.durable, miners, chainId);
      && HandleRequest(t.live.value, rawHash, recipient, amount, now, id) == t.live.value
      && (reloaded.Some? && Payable(reloaded.value.node, recipient, amount) ==>
            (HandleRequest(reloaded.value, rawHash, recipient, amount, now, id) != reloaded.value <==>
             DedupKey(rawHash) !in CollectHashes(NonceHistory.ChainTxs(t.durable))))
  {
    LostIsKnown(hashOf, s, es, DedupKey(rawHash));
    var t := OnEvents(hashOf, s, es);
    var reloaded := Reload(t.genesis, t.durable, miners, chainId);
    if reloaded.Some? && Payable(reloaded.value.node, recipient, amount) {
      PayableIsCredited(reloaded.value, rawHash, recipient, amount, now, id);
    }
  }
}
