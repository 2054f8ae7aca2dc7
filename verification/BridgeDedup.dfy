/** At most one credit per EVM hash, across crashes and restarts (src/rpc.rs:1822-1863,
    src/state.rs:2334-2372). The handler checks the dedup set, queues the credit and
    inserts the hash under one lock; a restart rebuilds the set from block memos. */
module BridgeDedup {
  import opened Wrappers
  import opened Ledger
  import opened Mempool
  import opened Sums
  import opened Text
  import Replay
  import NonceHistory
  import Runs

  /** The running node: its state and the hashes it has seen. */
  datatype Live = Live(node: Node, processed: set<string>)

  /** `node` is None while the process is down; `durable` is the chain in the database. */
  datatype System = System(genesis: Accounts, live: Option<Live>, durable: seq<Block>)

  /** The key the handler looks up. */
  function DedupKey(rawHash: string): string {
    AsciiLower(rawHash)
  }

  /** The hash `queue_bridge_credit` writes into the memo, given the handler's key. */
  function MemoHash(key: string): string {
    AsciiLower(Trim(key))
  }

  /** What the rebuild reads back from a memo. */
  function RecordedHash(tx: Tx): string {
    if BRIDGE_CREDIT_MEMO_PREFIX <= tx.memo then AsciiLower(Trim(tx.memo[|BRIDGE_CREDIT_MEMO_PREFIX|..])) else ""
  }

  function HashFound(tx: Tx): set<string> {
    if RecordedHash(tx) == "" then {} else {RecordedHash(tx)}
  }

  function RecipientFound(tx: Tx): set<Address> {
    if BRIDGE_CREDIT_MEMO_PREFIX <= tx.memo && AsciiUpper(Trim(tx.to)) != "" then {AsciiUpper(Trim(tx.to))} else {}
  }

  function CollectHashes(txs: seq<Tx>): set<string> {
    if txs == [] then {} else CollectHashes(txs[..|txs| - 1]) + HashFound(txs[|txs| - 1])
  }

  function CollectFunded(txs: seq<Tx>): set<Address> {
    if txs == [] then {} else CollectFunded(txs[..|txs| - 1]) + RecipientFound(txs[|txs| - 1])
  }

  /** A treasury credit for hash `h`. */
  predicate IsCredit(tx: Tx, h: string) {
    TreasuryCredit(tx) && tx.memo[|BRIDGE_CREDIT_MEMO_PREFIX|..] == h
  }

  predicate TreasuryCredit(tx: Tx) {
    tx.from == TREASURY && tx.auth.Legacy? && BRIDGE_CREDIT_MEMO_PREFIX <= tx.memo
  }

  function CreditFor(h: string): Tx -> nat {
    (tx: Tx) => if IsCredit(tx, h) then 1 else 0
  }

  function CreditCount(txs: seq<Tx>, h: string): nat {
    SeqSum(txs, CreditFor(h))
  }

  datatype Event =
    | Request(rawHash: string, recipient: Address, amount: u64, now: int, id: string)
    | Submit(tx: Tx)
    | SealBlock(start: int, end: int, db: Db, crash: bool)
    | Crash
    | Restart(miners: seq<Address>, chainId: string)

  /** `post_admin_bridge_evm_credit`, once its request checks have passed. */
  function HandleRequest(l: Live, rawHash: string, recipient: Address, amount: u64, now: int, id: string): Live {
    var key := DedupKey(rawHash);
    if key in l.processed then l
    else
      var queued := QueueBridgeCredit(l.node, recipient, amount, MemoHash(key), now, id);
      if queued.Failure? then l else Live(queued.value, l.processed + {key})
  }

  /** A restart loads the chain, replays it and rebuilds nonces and both sets. */
  function Reload(g: Accounts, durable: seq<Block>, miners: seq<Address>, chainId: string): Option<Live> {
    var accounts := Replay.ReplayEntries(g, ChainEntries(durable));
    var txs := NonceHistory.ChainTxs(durable);
    var nonces := NonceHistory.Rebuild(map[], txs);
    if accounts.Failure? || nonces.None? then None
    else
      Some(Live(Node(accounts.value, [], nonces.value, durable, miners, CollectFunded(txs), chainId),
        CollectHashes(txs)))
  }

  ghost function OnEvent(hashOf: Body -> string, s: System, e: Event): System {
    match e
    case Request(raw, r, amount, now, id) =>
      if s.live.None? then s else s.(live := Some(HandleRequest(s.live.value, raw, r, amount, now, id)))
    case Submit(tx) =>
      if s.live.None? then s
      else
        var queued := QueueTransaction(s.live.value.node, tx);
        if queued.Failure? then s else s.(live := Some(s.live.value.(node := queued.value)))
    case SealBlock(start, end, db, crash) =>
      if s.live.None? then s
      else
        var after := SealAttempt(hashOf, s.live.value.node, start, end, db);
        s.(live := if crash then None else Some(s.live.value.(node := after)), durable := after.blocks)
    case Crash => s.(live := None)
    case Restart(miners, chainId) =>
      if s.live.Some? then s else s.(live := Reload(s.genesis, s.durable, miners, chainId))
  }

  ghost function OnEvents(hashOf: Body -> string, s: System, es: seq<Event>): System
    decreases es
  {
    if es == [] then s else OnEvents(hashOf, OnEvent(hashOf, s, es[0]), es[1..])
  }

  /** The guard a caller can check: the hash carries no surrounding white space. */
  predicate CleanRequest(rawHash: string) {
    rawHash != [] && Trimmed(rawHash)
  }

  predicate CleanEvents(es: seq<Event>) {
    forall i :: 0 <= i < |es| && es[i].Request? ==> CleanRequest(es[i].rawHash)
  }

  lemma {:induction false} LowerTwice(s: string)
    ensures AsciiLower(AsciiLower(s)) == AsciiLower(s)
    ensures |AsciiLower(s)| == |s|
    ensures forall i :: 0 <= i < |s| ==> AsciiLower(s)[i] == LowerChar(s[i])
  {
    if s != [] {
      LowerTwice(s[1..]);
      assert AsciiLower(s)[1..] == AsciiLower(s[1..]);
    }
  }

  lemma LowerKeepsSpace(c: char)
    ensures IsWhitespace(LowerChar(c)) <==> IsWhitespace(c)
  {
  }

  lemma {:induction false} LowerTrimsStart(s: string)
    ensures TrimStart(AsciiLower(s)) == AsciiLower(TrimStart(s))
  {
    if s != [] {
      LowerKeepsSpace(s[0]);
      assert AsciiLower(s)[1..] == AsciiLower(s[1..]);
      LowerTrimsStart(s[1..]);
    }
  }

  lemma {:induction false} LowerConcat(s: string, t: string)
    ensures AsciiLower(s + t) == AsciiLower(s) + AsciiLower(t)
  {
    if s == [] {
      assert s + t == t;
    } else {
      assert (s + t)[1..] == s[1..] + t;
      LowerConcat(s[1..], t);
    }
  }

  lemma {:induction false} LowerTrimsEnd(s: string)
    ensures TrimEnd(AsciiLower(s)) == AsciiLower(TrimEnd(s))
  {
    if s != [] {
      var front, last := s[..|s| - 1], s[|s| - 1];
      assert s == front + [last];
      LowerConcat(front, [last]);
      assert AsciiLower([last]) == [LowerChar(last)];
      LowerKeepsSpace(last);
      assert AsciiLower(s)[..|AsciiLower(s)| - 1] == AsciiLower(front);
      LowerTrimsEnd(front);
    }
  }

  /** Trimming and lower-casing commute. */
  lemma LowerTrims(s: string)
    ensures Trim(AsciiLower(s)) == AsciiLower(Trim(s))
  {
    LowerTrimsStart(s);
    LowerTrimsEnd(TrimStart(s));
  }

  /** Main result on the key: the handler's key is the hash a restart will rebuild if and only
      if the request's hash carries no surrounding white space. */
  lemma KeySurvivesRestart(rawHash: string)
    ensures MemoHash(DedupKey(rawHash)) == DedupKey(Trim(rawHash))
    ensures MemoHash(DedupKey(rawHash)) == DedupKey(rawHash) <==> Trimmed(rawHash)
  {
    LowerTrims(rawHash);
    LowerTwice(Trim(rawHash));
    LowerTwice(rawHash);
    TrimEndsTrimmed(rawHash);
    if Trim(rawHash) != rawHash {
      TrimShortens(rawHash);
    }
  }

  lemma TrimShortens(s: string)
    requires Trim(s) != s
    ensures |Trim(s)| < |s|
  {
    TrimStartFirst(s);
    TrimEndLast(TrimStart(s));
    if !(s != [] && IsWhitespace(s[0])) {
      assert TrimStart(s) == s;
    }
  }

  /** A credit records a clean hash and pays a wallet. */
  predicate NormalCredit(tx: Tx) {
    TreasuryCredit(tx) ==>
      var h := tx.memo[|BRIDGE_CREDIT_MEMO_PREFIX|..];
      h != [] && AsciiLower(Trim(h)) == h && ValidWallet(tx.to)
  }

  ghost predicate CreditsNormal(txs: seq<Tx>) {
    forall i :: 0 <= i < |txs| ==> NormalCredit(txs[i])
  }

  ghost predicate AtMostOnce(txs: seq<Tx>) {
    forall h :: CreditCount(txs, h) <= 1
  }

  /** Sealed and queued credits together are unique, and the running node knows them all. */
  ghost predicate Deduplicated(s: System) {
    var sealed := NonceHistory.ChainTxs(s.durable);
    && CreditsNormal(sealed) && AtMostOnce(sealed)
    && (s.live.Some? ==>
          var l := s.live.value;
          && l.node.blocks == s.durable
          && CreditsNormal(sealed + l.node.mempool) && AtMostOnce(sealed + l.node.mempool)
          && forall h :: CreditCount(sealed + l.node.mempool, h) > 0 ==> h in l.processed)
  }

  lemma CountConcat(xs: seq<Tx>, ys: seq<Tx>, h: string)
    ensures CreditCount(xs + ys, h) == CreditCount(xs, h) + CreditCount(ys, h)
  {
    SeqSumConcat(xs, ys, CreditFor(h));
  }

  lemma CountOne(tx: Tx, h: string)
    ensures CreditCount([tx], h) == if IsCredit(tx, h) then 1 else 0
  {
    assert SeqSum([tx], CreditFor(h)) == CreditFor(h)(tx) + SeqSum([tx][1..], CreditFor(h));
    assert [tx][1..] == [];
  }

  lemma BridgeTxIsCredit(recipient: Address, amount: u64, memoHash: string, now: int, chainId: string, id: string,
                         h: string)
    ensures IsCredit(BridgeTx(recipient, amount, memoHash, now, chainId, id), h) <==> memoHash == h
  {
    var memo := BRIDGE_CREDIT_MEMO_PREFIX + memoHash;
    assert memo[|BRIDGE_CREDIT_MEMO_PREFIX|..] == memoHash;
  }

  lemma {:induction false} CountedIsCollected(txs: seq<Tx>, h: string)
    requires CreditsNormal(txs) && CreditCount(txs, h) > 0
    ensures h in CollectHashes(txs)
    decreases |txs|
  {
    var before, tx := txs[..|txs| - 1], txs[|txs| - 1];
    assert txs == before + [tx];
    CountConcat(before, [tx], h);
    CountOne(tx, h);
    assert NormalCredit(tx);
    if !IsCredit(tx, h) {
      assert forall i :: 0 <= i < |before| ==> before[i] == txs[i];
      CountedIsCollected(before, h);
    }
  }

  lemma QueuedCreditKeepsDeduplicated(s: System, rawHash: string, recipient: Address, amount: u64, now: int, id: string)
    requires Deduplicated(s) && s.live.Some? && CleanRequest(rawHash)
    ensures Deduplicated(s.(live := Some(HandleRequest(s.live.value, rawHash, recipient, amount, now, id))))
  {
    var l, sealed := s.live.value, NonceHistory.ChainTxs(s.durable);
    var key := DedupKey(rawHash);
    var after := HandleRequest(l, rawHash, recipient, amount, now, id);
    if after != l {
      KeySurvivesRestart(rawHash);
      LowerTwice(rawHash);
      var tx := BridgeTx(recipient, amount, MemoHash(key), now, l.node.chainId, id);
      var all := sealed + l.node.mempool;
      assert sealed + after.node.mempool == all + [tx];
      BridgeTxIsCredit(recipient, amount, MemoHash(key), now, l.node.chainId, id, key);
      OneMoreCredit(all, tx, key);
      forall h | CreditCount(all + [tx], h) > 0 ensures h in after.processed {
        CountConcat(all, [tx], h);
        CountOne(tx, h);
      }
    }
  }

  lemma NormalAppend(all: seq<Tx>, tx: Tx)
    requires CreditsNormal(all) && NormalCredit(tx)
    ensures CreditsNormal(all + [tx])
  {
  }

  lemma OneMoreCredit(all: seq<Tx>, tx: Tx, key: string)
    requires CreditsNormal(all) && AtMostOnce(all) && CreditCount(all, key) == 0
    requires IsCredit(tx, key) && key != [] && AsciiLower(Trim(key)) == key && ValidWallet(tx.to)
    ensures CreditsNormal(all + [tx]) && AtMostOnce(all + [tx])
  {
    forall h ensures CreditCount(all + [tx], h) <= 1 {
      CountConcat(all, [tx], h);
      CountOne(tx, h);
      assert CreditCount(all, h) <= 1;
    }
    NormalAppend(all, tx);
  }

  lemma SubmitKeepsDeduplicated(s: System, tx: Tx)
    requires Deduplicated(s) && s.live.Some? && QueueTransaction(s.live.value.node, tx).Success?
    ensures Deduplicated(s.(live := Some(s.live.value.(node := QueueTransaction(s.live.value.node, tx).value))))
  {
    var l, sealed := s.live.value, NonceHistory.ChainTxs(s.durable);
    var all := sealed + l.node.mempool;
    assert Rejection(l.node, tx).None?;
    assert tx.auth.Signed?;
    assert sealed + (l.node.mempool + [tx]) == all + [tx];
    forall h ensures CreditCount(all + [tx], h) == CreditCount(all, h) {
      CountConcat(all, [tx], h);
      CountOne(tx, h);
    }
    NormalAppend(all, tx);
  }

  lemma ChainTxsLast(blocks: seq<Block>, block: Block)
    ensures NonceHistory.ChainTxs(blocks + [block]) == NonceHistory.ChainTxs(blocks) + block.body.txs
  {
    assert (blocks + [block])[..|blocks + [block]| - 1] == blocks;
  }

  lemma SealedTxs(hashOf: Body -> string, n: Node, start: int, end: int)
    requires Seal(hashOf, n, start, end).Success?
    ensures Seal(hashOf, n, start, end).value.mempool == []
    ensures NonceHistory.ChainTxs(Seal(hashOf, n, start, end).value.blocks) ==
            NonceHistory.ChainTxs(n.blocks) + SortForBlock(n.mempool)
  {
    var block := Runs.SealAppends(hashOf, n, start, end);
    ChainTxsLast(n.blocks, block);
  }

  lemma RearrangedKeeps(sealed: seq<Tx>, queue: seq<Tx>, sorted: seq<Tx>)
    requires multiset(queue) == multiset(sorted)
    requires CreditsNormal(sealed + queue) && AtMostOnce(sealed + queue)
    ensures CreditsNormal(sealed + sorted) && AtMostOnce(sealed + sorted)
    ensures forall h :: CreditCount(sealed + sorted, h) == CreditCount(sealed + queue, h)
  {
    forall h ensures CreditCount(sealed + sorted, h) == CreditCount(sealed + queue, h) {
      SeqSumPermutation(queue, sorted, CreditFor(h));
      CountConcat(sealed, queue, h);
      CountConcat(sealed, sorted, h);
    }
    forall i | 0 <= i < |sealed + sorted| ensures NormalCredit((sealed + sorted)[i]) {
      if i < |sealed| {
        assert (sealed + queue)[i] == sealed[i];
      } else {
        var tx := sorted[i - |sealed|];
        assert tx in multiset(queue);
        var k :| 0 <= k < |queue| && queue[k] == tx;
        assert (sealed + queue)[|sealed| + k] == tx;
      }
    }
  }

  /** A seal that fails, however far it got, drops the queue and leaves the chain. */
  lemma FailedSealKeepsDeduplicated(s: System, m: Node)
    requires Deduplicated(s) && s.live.Some? && m.mempool == [] && m.blocks == s.durable
    ensures Deduplicated(s.(live := Some(s.live.value.(node := m)))) && Deduplicated(s.(live := None))
  {
    var sealed, queue := NonceHistory.ChainTxs(s.durable), s.live.value.node.mempool;
    assert sealed + [] == sealed;
    forall h | CreditCount(sealed, h) > 0 ensures h in s.live.value.processed {
      CountConcat(sealed, queue, h);
    }
  }

  lemma StoredSealKeepsDeduplicated(hashOf: Body -> string, s: System, start: int, end: int)
    requires Deduplicated(s) && s.live.Some? && Seal(hashOf, s.live.value.node, start, end).Success?
    ensures var m := Seal(hashOf, s.live.value.node, start, end).value;
      && Deduplicated(s.(live := Some(s.live.value.(node := m)), durable := m.blocks))
      && Deduplicated(s.(live := None, durable := m.blocks))
  {
    var n := s.live.value.node;
    var m := Seal(hashOf, n, start, end).value;
    var sealed := NonceHistory.ChainTxs(s.durable);
    SealedTxs(hashOf, n, start, end);
    Runs.SortedQueue(n.mempool);
    RearrangedKeeps(sealed, n.mempool, SortForBlock(n.mempool));
    assert NonceHistory.ChainTxs(m.blocks) + [] == NonceHistory.ChainTxs(m.blocks);
  }

  lemma FailedSealShape(hashOf: Body -> string, n: Node, start: int, end: int)
    ensures SealKept(hashOf, n, start, end).mempool == [] && SealKept(hashOf, n, start, end).blocks == n.blocks
  {
  }

  lemma SealKeepsDeduplicated(hashOf: Body -> string, s: System, start: int, end: int, db: Db)
    requires Deduplicated(s) && s.live.Some?
    ensures var m := SealAttempt(hashOf, s.live.value.node, start, end, db);
      && Deduplicated(s.(live := Some(s.live.value.(node := m)), durable := m.blocks))
      && Deduplicated(s.(live := None, durable := m.blocks))
  {
    var n := s.live.value.node;
    if db.Stores? && Seal(hashOf, n, start, end).Success? {
      StoredSealKeepsDeduplicated(hashOf, s, start, end);
    } else if !db.Unread? {
      FailedSealShape(hashOf, n, start, end);
      FailedSealKeepsDeduplicated(s, SealKept(hashOf, n, start, end));
    }
  }

  lemma ReloadKeepsDeduplicated(s: System, miners: seq<Address>, chainId: string)
    requires Deduplicated(s)
    ensures Deduplicated(s.(live := Reload(s.genesis, s.durable, miners, chainId)))
  {
    var sealed := NonceHistory.ChainTxs(s.durable);
    assert sealed + [] == sealed;
    forall h | CreditCount(sealed, h) > 0 ensures h in CollectHashes(sealed) {
      CountedIsCollected(sealed, h);
    }
  }

  lemma EventKeepsDeduplicated(hashOf: Body -> string, s: System, e: Event)
    requires Deduplicated(s) && (e.Request? ==> CleanRequest(e.rawHash))
    ensures Deduplicated(OnEvent(hashOf, s, e))
  {
    match e
    case Request(raw, r, amount, now, id) =>
      if s.live.Some? {
        QueuedCreditKeepsDeduplicated(s, raw, r, amount, now, id);
      }
    case Submit(tx) =>
      if s.live.Some? && QueueTransaction(s.live.value.node, tx).Success? {
        SubmitKeepsDeduplicated(s, tx);
      }
    case SealBlock(start, end, db, crash) =>
      if s.live.Some? {
        SealKeepsDeduplicated(hashOf, s, start, end, db);
      }
    case Crash =>
    case Restart(miners, chainId) =>
      if s.live.None? {
        ReloadKeepsDeduplicated(s, miners, chainId);
      }
  }

  /** Main result: over any interleaving of clean credit requests, transfers, seals that succeed or
      fail, crashes before or after a seal is stored, and restarts, the durable chain holds at
      most one treasury credit per EVM hash. */
  lemma {:induction false} OneCreditPerHash(hashOf: Body -> string, s: System, es: seq<Event>, h: string)
    requires Deduplicated(s) && CleanEvents(es)
    ensures Deduplicated(OnEvents(hashOf, s, es))
    ensures CreditCount(NonceHistory.ChainTxs(OnEvents(hashOf, s, es).durable), h) <= 1
    decreases es
  {
    if es != [] {
      EventKeepsDeduplicated(hashOf, s, es[0]);
      OneCreditPerHash(hashOf, OnEvent(hashOf, s, es[0]), es[1..], h);
    }
  }

  /** Main result: every sealed credit's hash and recipient are in the sets a restart rebuilds. */
  lemma {:induction false} RestartRemembersCredits(txs: seq<Tx>, i: nat, h: string)
    requires CreditsNormal(txs) && i < |txs| && IsCredit(txs[i], h)
    ensures h in CollectHashes(txs) && txs[i].to in CollectFunded(txs)
    decreases |txs|
  {
    var before, tx := txs[..|txs| - 1], txs[|txs| - 1];
    if i == |before| {
      assert NormalCredit(tx);
      WalletIsNormal(tx.to);
    } else {
      assert before[i] == txs[i];
      assert forall k :: 0 <= k < |before| ==> before[k] == txs[k];
      RestartRemembersCredits(before, i, h);
    }
  }

  /** A hash and its trimmed form have different keys and one memo, unless it was trimmed. */
  lemma PaddedKeys(rawHash: string)
    requires !Trimmed(rawHash)
    ensures DedupKey(Trim(rawHash)) != DedupKey(rawHash)
    ensures MemoHash(DedupKey(rawHash)) == DedupKey(Trim(rawHash)) == MemoHash(DedupKey(Trim(rawHash)))
  {
    KeySurvivesRestart(rawHash);
    TrimEndsTrimmed(rawHash);
    KeySurvivesRestart(Trim(rawHash));
  }

  /** One request that is not refused. */
  lemma FreshRequestQueues(l: Live, rawHash: string, recipient: Address, amount: u64, now: int, id: string)
    requires DedupKey(rawHash) !in l.processed
    requires amount > 0 && ValidWallet(recipient) && recipient != TREASURY
    requires Balance(l.node.accounts, TREASURY) + amount + MIN_FEE_ANTS <= U64_MAX
    ensures
      var after := HandleRequest(l, rawHash, recipient, amount, now, id);
      && after.processed == l.processed + {DedupKey(rawHash)}
      && after.node.mempool == l.node.mempool + [BridgeTx(recipient, amount, MemoHash(DedupKey(rawHash)), now,
          l.node.chainId, id)]
      && after.node.chainId == l.node.chainId
      && Balance(after.node.accounts, TREASURY) == Balance(l.node.accounts, TREASURY) + amount + MIN_FEE_ANTS
  {
  }

  /** Without the guard the result fails, for every hash with surrounding white space: it and its
      trimmed form are both credited, under one and the same memo. */
  lemma PaddedHashCreditsTwice(l: Live, rawHash: string, recipient: Address, amount: u64, now: int)
    requires !Trimmed(rawHash) && DedupKey(rawHash) !in l.processed && DedupKey(Trim(rawHash)) !in l.processed
    requires amount > 0 && ValidWallet(recipient) && recipient != TREASURY
    requires Balance(l.node.accounts, TREASURY) + 2 * (amount + MIN_FEE_ANTS) <= U64_MAX
    ensures
      var memo := DedupKey(Trim(rawHash));
      var once := HandleRequest(l, rawHash, recipient, amount, now, "a");
      var twice := HandleRequest(once, Trim(rawHash), recipient, amount, now, "b");
      CreditCount(twice.node.mempool, memo) == CreditCount(l.node.mempool, memo) + 2
  {
    var memo := DedupKey(Trim(rawHash));
    PaddedKeys(rawHash);
    FreshRequestQueues(l, rawHash, recipient, amount, now, "a");
    var once := HandleRequest(l, rawHash, recipient, amount, now, "a");
    FreshRequestQueues(once, Trim(rawHash), recipient, amount, now, "b");
    var x := BridgeTx(recipient, amount, memo, now, l.node.chainId, "a");
    CountCredit(l.node.mempool, recipient, amount, memo, now, l.node.chainId, "a");
    CountCredit(l.node.mempool + [x], recipient, amount, memo, now, l.node.chainId, "b");
  }

  lemma CountCredit(queue: seq<Tx>, recipient: Address, amount: u64, h: string, now: int, chainId: string, id: string)
    ensures CreditCount(queue + [BridgeTx(recipient, amount, h, now, chainId, id)], h) == CreditCount(queue, h) + 1
  {
    var tx := BridgeTx(recipient, amount, h, now, chainId, id);
    BridgeTxIsCredit(recipient, amount, h, now, chainId, id, h);
    CountConcat(queue, [tx], h);
    CountOne(tx, h);
  }

  lemma CollectLast(txs: seq<Tx>, tx: Tx)
    ensures CollectHashes(txs + [tx]) == CollectHashes(txs) + HashFound(tx)
    ensures CollectFunded(txs + [tx]) == CollectFunded(txs) + RecipientFound(tx)
  {
    assert (txs + [tx])[..|txs + [tx]| - 1] == txs;
  }

  lemma CollectStep(done: seq<Tx>, txs: seq<Tx>, i: nat)
    requires i < |txs|
    ensures CollectHashes(done + txs[..i + 1]) == CollectHashes(done + txs[..i]) + HashFound(txs[i])
    ensures CollectFunded(done + txs[..i + 1]) == CollectFunded(done + txs[..i]) + RecipientFound(txs[i])
  {
    assert done + txs[..i + 1] == (done + txs[..i]) + [txs[i]];
    CollectLast(done + txs[..i], txs[i]);
  }

  /** The hash of one stored transaction, if it records one. */
  method AddHash(hashes: set<string>, tx: Tx) returns (r: set<string>)
    ensures r == hashes + HashFound(tx)
  {
    r := hashes;
    if BRIDGE_CREDIT_MEMO_PREFIX <= tx.memo {
      var hash := AsciiLower(Trim(tx.memo[|BRIDGE_CREDIT_MEMO_PREFIX|..]));
      if hash != "" {
        r := r + {hash};
      }
    }
  }

  method AddRecipient(funded: set<Address>, tx: Tx) returns (r: set<Address>)
    ensures r == funded + RecipientFound(tx)
  {
    r := funded;
    if BRIDGE_CREDIT_MEMO_PREFIX <= tx.memo {
      var recipient := AsciiUpper(Trim(tx.to));
      if recipient != "" {
        r := r + {recipient};
      }
    }
  }

  method AddHashes(start: set<string>, ghost done: seq<Tx>, txs: seq<Tx>) returns (hashes: set<string>)
    requires start == CollectHashes(done)
    ensures hashes == CollectHashes(done + txs)
  {
    hashes := start;
    assert done + txs[..0] == done;
    for i := 0 to |txs|
      invariant hashes == CollectHashes(done + txs[..i])
    {
      CollectStep(done, txs, i);
      hashes := AddHash(hashes, txs[i]);
    }
    assert txs[..|txs|] == txs;
  }

  /** `collect_processed_bridge_hashes`. */
  method CollectProcessedBridgeHashes(blocks: seq<Block>) returns (hashes: set<string>)
    ensures hashes == CollectHashes(NonceHistory.ChainTxs(blocks))
  {
    hashes := {};
    for b := 0 to |blocks|
      invariant hashes == CollectHashes(NonceHistory.ChainTxs(blocks[..b]))
    {
      hashes := AddHashes(hashes, NonceHistory.ChainTxs(blocks[..b]), blocks[b].body.txs);
      assert blocks[..b + 1] == blocks[..b] + [blocks[b]];
      ChainTxsLast(blocks[..b], blocks[b]);
    }
    assert blocks[..|blocks|] == blocks;
  }

  method AddRecipients(start: set<string>, ghost done: seq<Tx>, txs: seq<Tx>) returns (funded: set<string>)
    requires start == CollectFunded(done)
    ensures funded == CollectFunded(done + txs)
  {
    funded := start;
    assert done + txs[..0] == done;
    for i := 0 to |txs|
      invariant funded == CollectFunded(done + txs[..i])
    {
      CollectStep(done, txs, i);
      funded := AddRecipient(funded, txs[i]);
    }
    assert txs[..|txs|] == txs;
  }

  /** `collect_bridge_funded_accounts`. */
  method CollectBridgeFundedAccounts(blocks: seq<Block>) returns (funded: set<string>)
    ensures funded == CollectFunded(NonceHistory.ChainTxs(blocks))
  {
    funded := {};
    for b := 0 to |blocks|
      invariant funded == CollectFunded(NonceHistory.ChainTxs(blocks[..b]))
    {
      funded := AddRecipients(funded, NonceHistory.ChainTxs(blocks[..b]), blocks[b].body.txs);
      assert blocks[..b + 1] == blocks[..b] + [blocks[b]];
      ChainTxsLast(blocks[..b], blocks[b]);
    }
    assert blocks[..|blocks|] == blocks;
  }
}
