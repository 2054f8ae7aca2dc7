/** A restart against the node that never stopped.

    Live, each bridge credit funds the treasury when it is queued; on replay the
    reconciliation funds it. `queue_bridge_credit` promises byte-identical state
    (src/state.rs:1042-1047). Whenever the queue is empty balances agree exactly when no refused
    seal dropped a credit, and the states are identical exactly when, besides, none was sealed,
    because a replay top-up also counts as activated supply of the treasury. */
module LiveReplay {
  import opened Wrappers
  import opened Ledger
  import opened Replay
  import opened Mempool
  import opened Sums
  import opened Solvency
  import opened Runs
  import Text

  /** Everything bridge credits have taken or will take from the treasury. */
  ghost function BridgeDebits(n: Node): nat {
    Debits(ChainEntries(n.blocks), TREASURY) + Pending(n.mempool, TREASURY)
  }

  function Prefund(g: Accounts, p: nat): Accounts
    requires Balance(g, TREASURY) + p <= U64_MAX
  {
    if p == 0 then g else AddAnts(g, TREASURY, p)
  }

  /** The live accounts are genesis with all bridge funding paid up front, then the chain. */
  ghost predicate Tracks(g: Accounts, n: Node) {
    && TREASURY !in n.miners
    && Balance(g, TREASURY) == 0
    && Credits(ChainEntries(n.blocks), TREASURY) == 0
    && (BridgeDebits(n) <= U64_MAX ==>
          Apply(Prefund(g, BridgeDebits(n)), ChainEntries(n.blocks)) == Success(n.accounts))
  }

  predicate NoActivation(steps: seq<Step>) {
    forall i :: 0 <= i < |steps| ==> !steps[i].Activate?
  }

  lemma PrefundMore(g: Accounts, p: nat, d: nat)
    requires Balance(g, TREASURY) + p + d <= U64_MAX && d > 0
    ensures AddAnts(Prefund(g, p), TREASURY, d) == Prefund(g, p + d)
  {
  }

  lemma {:induction false} NoMinerCredit(miners: seq<Address>, share: nat, a: Address)
    requires a !in miners
    ensures Credits(MinerEntries(miners, share), a) == 0
  {
    if miners != [] {
      assert MinerEntries(miners, share)[1..] == MinerEntries(miners[1..], share);
      NoMinerCredit(miners[1..], share, a);
    }
  }

  lemma {:induction false} NoDebitsInCredits(es: seq<Entry>, a: Address)
    requires OnlyCredits(es)
    ensures Debits(es, a) == 0
  {
    if es != [] {
      NoDebitsInCredits(es[1..], a);
    }
  }

  lemma TreasuryGetsNoFees(b: Body)
    requires TREASURY !in b.miners && b.feePerMiner == FeeShare(b.totalFees, |b.miners|)
    ensures Credits(FeeEntries(b), TREASURY) == 0 && Debits(FeeEntries(b), TREASURY) == 0
  {
    FeesAreHandedOut(b);
    NoDebitsInCredits(FeeEntries(b), TREASURY);
    NoMinerCredit(b.miners, b.feePerMiner, TREASURY);
    if b.totalFees > 0 && b.miners != [] {
      var rest := b.totalFees % |b.miners|;
      var tail := if rest > 0 then [Credit(FEE_RESERVE, rest)] else [];
      SumsConcat(MinerEntries(b.miners, b.feePerMiner), tail, TREASURY);
      ReserveIsNotTreasury();
    } else {
      ReserveIsNotTreasury();
    }
  }

  lemma ReserveIsNotTreasury()
    ensures FEE_RESERVE != TREASURY
  {
    assert FEE_RESERVE[0] != TREASURY[0];
  }

  lemma {:induction false} NothingSentToTreasury(txs: seq<Tx>)
    requires AllQueuedTx(txs)
    ensures SeqSum(txs, CreditTo(TREASURY)) == 0
  {
    if txs != [] {
      assert QueuedTx(txs[0]);
      NothingSentToTreasury(txs[1..]);
    }
  }

  lemma NoTreasuryTransfer(n: Node, tx: Tx)
    requires Sound(n) && QueueTransaction(n, tx).Success?
    ensures tx.from != TREASURY
  {
    assert Rejection(n, tx).None?;
  }

  lemma BridgeCreditDebits(n: Node, recipient: Address, amount: u64, memoHash: string, now: int, id: string)
    requires QueueBridgeCredit(n, recipient, amount, memoHash, now, id).Success?
    ensures BridgeDebits(QueueBridgeCredit(n, recipient, amount, memoHash, now, id).value) ==
        BridgeDebits(n) + amount + MIN_FEE_ANTS
  {
    PendingAppend(n.mempool, BridgeTx(recipient, amount, memoHash, now, n.chainId, id), TREASURY);
  }

  lemma {:induction false} TransfersPay(txs: seq<Tx>)
    requires AllQueuedTx(txs)
    ensures PositiveDebits(TxEntries(txs))
  {
    if txs != [] {
      assert QueuedTx(txs[0]);
      TransfersPay(txs[1..]);
      PositiveConcat(TxPair(txs[0]), TxEntries(txs[1..]));
    }
  }

  lemma PositiveConcat(xs: seq<Entry>, ys: seq<Entry>)
    requires PositiveDebits(xs) && PositiveDebits(ys)
    ensures PositiveDebits(xs + ys)
  {
  }

  lemma BlockPays(b: Block, queue: seq<Tx>)
    requires AllQueuedTx(queue) && b.body.txs == SortForBlock(queue)
    requires b.body.feePerMiner == FeeShare(b.body.totalFees, |b.body.miners|)
    ensures PositiveDebits(BlockEntries(b))
  {
    forall i | 0 <= i < |b.body.txs| ensures QueuedTx(b.body.txs[i]) {
      SortedMember(queue, i);
    }
    TransfersPay(b.body.txs);
    FeesAreHandedOut(b.body);
    PositiveConcat(TxEntries(b.body.txs), FeeEntries(b.body));
  }

  lemma EntryWithoutAnts(accounts: Accounts, e: Entry, a: Address, d: nat)
    requires Balance(accounts, a) + d <= U64_MAX && ApplyEntry(AddAnts(accounts, a, d), e).Success?
    requires e.who == a ==> if e.Debit? then 0 < e.amount <= Balance(accounts, a) else e.amount == 0
    ensures ApplyEntry(accounts, e).Success?
  {
    assert e.who != a ==> Get(AddAnts(accounts, a, d), e.who) == Get(accounts, e.who);
  }

  /** Ants an address does not need for its own debits can be left out of a run. */
  lemma {:induction false} ApplyWithoutAnts(accounts: Accounts, es: seq<Entry>, a: Address, d: nat)
    requires Balance(accounts, a) + d <= U64_MAX && Apply(AddAnts(accounts, a, d), es).Success?
    requires PositiveDebits(es) && Credits(es, a) == 0 && Debits(es, a) <= Balance(accounts, a)
    ensures Apply(accounts, es).Success?
    ensures Balance(Apply(accounts, es).value, a) + d <= U64_MAX
    ensures Apply(AddAnts(accounts, a, d), es) == Success(AddAnts(Apply(accounts, es).value, a, d))
    decreases es
  {
    if es != [] {
      assert [es[0]][1..] == [];
      EntryWithoutAnts(accounts, es[0], a, d);
      EntryAddAnts(accounts, es[0], a, d);
      ApplyWithoutAnts(ApplyEntry(accounts, es[0]).value, es[1..], a, d);
    }
  }

  /** `live` is `lean` with `d` more in the treasury, and `lean` the run of `es` from a genesis
      funded with `p`. */
  ghost predicate LeanRun(g: Accounts, p: nat, es: seq<Entry>, d: nat, lean: Accounts, live: Accounts) {
    && Balance(g, TREASURY) + p <= U64_MAX
    && Apply(Prefund(g, p), es) == Success(lean)
    && Balance(lean, TREASURY) + d <= U64_MAX
    && live == Prefund(lean, d)
  }

  ghost predicate LeanOf(g: Accounts, n: Node, d: nat, lean: Accounts) {
    LeanRun(g, BridgeDebits(n), ChainEntries(n.blocks), d, lean, n.accounts)
  }

  /** The live accounts are those of a node whose refused seals had never been queued, plus the
      funding `d` of the bridge credits those seals dropped. */
  ghost predicate TracksBut(g: Accounts, n: Node, d: nat) {
    && TREASURY !in n.miners
    && Balance(g, TREASURY) == 0
    && Credits(ChainEntries(n.blocks), TREASURY) == 0
    && PositiveDebits(ChainEntries(n.blocks))
    && (BridgeDebits(n) + d <= U64_MAX ==> exists lean :: LeanOf(g, n, d, lean))
  }

  lemma QueueingTracks(g: Accounts, n: Node, tx: Tx, d: nat)
    requires TracksBut(g, n, d) && Sound(n) && QueueTransaction(n, tx).Success?
    ensures TracksBut(g, QueueTransaction(n, tx).value, d)
  {
    NoTreasuryTransfer(n, tx);
    PendingAppend(n.mempool, tx, TREASURY);
    var m := QueueTransaction(n, tx).value;
    assert m.blocks == n.blocks && m.accounts == n.accounts && m.miners == n.miners &&
        BridgeDebits(m) == BridgeDebits(n);
    if BridgeDebits(n) + d <= U64_MAX {
      var lean :| LeanOf(g, n, d, lean);
      assert LeanOf(g, m, d, lean);
    }
  }

  lemma FundLean(lean: Accounts, d: nat, x: nat)
    requires x > 0 && Balance(lean, TREASURY) + d + x <= U64_MAX
    ensures AddAnts(Prefund(lean, d), TREASURY, x) == Prefund(AddAnts(lean, TREASURY, x), d)
  {
  }

  lemma FundingTracks(g: Accounts, n: Node, m: Node, d: nat, x: nat)
    requires TracksBut(g, n, d) && x > 0 && Balance(n.accounts, TREASURY) + x <= U64_MAX
    requires m.accounts == AddAnts(n.accounts, TREASURY, x) && m.blocks == n.blocks && m.miners == n.miners
    requires BridgeDebits(m) == BridgeDebits(n) + x
    ensures TracksBut(g, m, d)
  {
    if BridgeDebits(m) + d <= U64_MAX {
      var p, es := BridgeDebits(n), ChainEntries(n.blocks);
      var lean :| LeanOf(g, n, d, lean);
      PrefundMore(g, p, x);
      ApplyAddAnts(Prefund(g, p), es, TREASURY, x);
      FundLean(lean, d, x);
      assert LeanOf(g, m, d, AddAnts(lean, TREASURY, x));
    }
  }

  lemma BridgeCreditTracks(g: Accounts, n: Node, recipient: Address, amount: u64, memoHash: string, now: int,
                           id: string, d: nat)
    requires TracksBut(g, n, d) && QueueBridgeCredit(n, recipient, amount, memoHash, now, id).Success?
    ensures TracksBut(g, QueueBridgeCredit(n, recipient, amount, memoHash, now, id).value, d)
  {
    BridgeCreditDebits(n, recipient, amount, memoHash, now, id);
    FundingTracks(g, n, QueueBridgeCredit(n, recipient, amount, memoHash, now, id).value, d, amount + MIN_FEE_ANTS);
  }

  /** The treasury of the lean accounts holds exactly what the queue will take. */
  lemma LeanTreasury(g: Accounts, n: Node, d: nat, lean: Accounts)
    requires Balance(g, TREASURY) == 0 && BridgeDebits(n) <= U64_MAX && LeanOf(g, n, d, lean)
    requires Credits(ChainEntries(n.blocks), TREASURY) == 0
    ensures Balance(lean, TREASURY) == Pending(n.mempool, TREASURY)
  {
    ApplyBalance(Prefund(g, BridgeDebits(n)), ChainEntries(n.blocks), TREASURY);
  }

  lemma LeanerRun(g: Accounts, es: seq<Entry>, spent: nat, q: nat, lean: Accounts)
    requires Balance(g, TREASURY) == 0 && spent + q <= U64_MAX && q > 0
    requires Apply(Prefund(g, spent + q), es) == Success(lean)
    requires PositiveDebits(es) && Credits(es, TREASURY) == 0 && Debits(es, TREASURY) == spent
    ensures Apply(Prefund(g, spent), es).Success?
    ensures Balance(Apply(Prefund(g, spent), es).value, TREASURY) + q <= U64_MAX
    ensures lean == AddAnts(Apply(Prefund(g, spent), es).value, TREASURY, q)
  {
    PrefundMore(g, spent, q);
    ApplyWithoutAnts(Prefund(g, spent), es, TREASURY, q);
  }

  lemma PrefundTwice(leaner: Accounts, q: nat, d: nat)
    requires q > 0 && Balance(leaner, TREASURY) + q + d <= U64_MAX
    ensures Prefund(AddAnts(leaner, TREASURY, q), d) == Prefund(leaner, d + q)
  {
  }

  /** From what a run funded with `p` left, what one funded with the debits alone leaves. */
  lemma LeanerBy(g: Accounts, es: seq<Entry>, p: nat, d: nat, spent: nat, e: nat, lean: Accounts, live: Accounts)
    returns (leaner: Accounts)
    requires Balance(g, TREASURY) == 0 && Credits(es, TREASURY) == 0 && PositiveDebits(es)
    requires spent == Debits(es, TREASURY) && spent <= p && e == d + p - spent
    requires LeanRun(g, p, es, d, lean, live)
    ensures LeanRun(g, spent, es, e, leaner, live)
  {
    if spent == p {
      leaner := lean;
    } else {
      LeanerRun(g, es, spent, p - spent, lean);
      leaner := Apply(Prefund(g, spent), es).value;
      PrefundTwice(leaner, p - spent, d);
    }
  }

  lemma DroppedQueue(n: Node)
    ensures BridgeDebits(n.(mempool := [])) == Debits(ChainEntries(n.blocks), TREASURY)
    ensures BridgeDebits(n) == Debits(ChainEntries(n.blocks), TREASURY) + Pending(n.mempool, TREASURY)
  {
    assert Pending([], TREASURY) == 0;
  }

  /** A refused seal drops the queue and leaves its funding. */
  lemma DroppingTracks(g: Accounts, n: Node, d: nat) returns (m: Node, e: nat)
    requires TracksBut(g, n, d)
    ensures m == n.(mempool := []) && e == d + Pending(n.mempool, TREASURY) && TracksBut(g, m, e)
  {
    m, e := n.(mempool := []), d + Pending(n.mempool, TREASURY);
    DroppedQueue(n);
    if BridgeDebits(n) + d <= U64_MAX {
      var lean :| LeanOf(g, n, d, lean);
      var leaner := LeanerBy(g, ChainEntries(n.blocks), BridgeDebits(n), d, BridgeDebits(m), e, lean, n.accounts);
      assert LeanOf(g, m, e, leaner);
    }
  }

  lemma BlockTreasuryTotals(b: Block, queue: seq<Tx>)
    requires AllQueuedTx(queue) && b.body.txs == SortForBlock(queue)
    requires TREASURY !in b.body.miners && b.body.feePerMiner == FeeShare(b.body.totalFees, |b.body.miners|)
    ensures Debits(BlockEntries(b), TREASURY) == Pending(queue, TREASURY)
    ensures Credits(BlockEntries(b), TREASURY) == 0
  {
    var txs := b.body.txs;
    SortedQueue(queue);
    forall i | 0 <= i < |txs| ensures QueuedTx(txs[i]) {
      SortedMember(queue, i);
    }
    NothingSentToTreasury(txs);
    SameTransfersSameFees(txs, queue);
    TxEntriesTotals(txs, TREASURY);
    TreasuryGetsNoFees(b.body);
    SumsConcat(TxEntries(txs), FeeEntries(b.body), TREASURY);
  }

  lemma ChainEntriesAppend(blocks: seq<Block>, b: Block)
    ensures ChainEntries(blocks + [b]) == ChainEntries(blocks) + BlockEntries(b)
  {
    ChainEntriesConcat(blocks, [b]);
    assert [b][1..] == [];
    assert ChainEntries([b]) == BlockEntries(b) + [] == BlockEntries(b);
  }

  /** A seal appends one block, and that block takes the live accounts onward. */
  lemma SealExtendsHistory(hashOf: Body -> string, n: Node, start: int, end: int, b: Block)
    requires NewBlock(hashOf, NextHeight(n.blocks), start, end, TipHash(n.blocks), SortForBlock(n.mempool),
        n.miners) == Success(b)
    requires Seal(hashOf, n, start, end).Success?
    ensures
      var m := Seal(hashOf, n, start, end).value;
      && m.mempool == [] && m.miners == n.miners && m.blocks == n.blocks + [b]
      && Apply(n.accounts, BlockEntries(b)) == Success(m.accounts)
  {
  }

  lemma SealedLean(n: Node, lean: Accounts, d: nat, es: seq<Entry>, after: Accounts)
    requires Balance(lean, TREASURY) + d <= U64_MAX && n.accounts == Prefund(lean, d)
    requires Apply(n.accounts, es) == Success(after) && PositiveDebits(es)
    requires Credits(es, TREASURY) == 0 && Debits(es, TREASURY) <= Balance(lean, TREASURY)
    ensures Apply(lean, es).Success?
    ensures Balance(Apply(lean, es).value, TREASURY) + d <= U64_MAX && after == Prefund(Apply(lean, es).value, d)
  {
    if d == 0 {
      ApplyBalance(lean, es, TREASURY);
    } else {
      ApplyWithoutAnts(lean, es, TREASURY, d);
    }
  }

  lemma ExtendedHistoryTracks(g: Accounts, n: Node, m: Node, b: Block, d: nat)
    requires TracksBut(g, n, d) && m.mempool == [] && m.miners == n.miners && m.blocks == n.blocks + [b]
    requires Apply(n.accounts, BlockEntries(b)) == Success(m.accounts) && PositiveDebits(BlockEntries(b))
    requires Debits(BlockEntries(b), TREASURY) == Pending(n.mempool, TREASURY)
    requires Credits(BlockEntries(b), TREASURY) == 0
    ensures TracksBut(g, m, d)
  {
    var es, more := ChainEntries(n.blocks), BlockEntries(b);
    ChainEntriesAppend(n.blocks, b);
    SumsConcat(es, more, TREASURY);
    PositiveConcat(es, more);
    assert Pending([], TREASURY) == 0 && BridgeDebits(m) == BridgeDebits(n);
    if BridgeDebits(n) + d <= U64_MAX {
      var lean :| LeanOf(g, n, d, lean);
      LeanTreasury(g, n, d, lean);
      SealedLean(n, lean, d, more, m.accounts);
      ApplyConcat(Prefund(g, BridgeDebits(n)), es, more);
      assert LeanOf(g, m, d, Apply(lean, more).value);
    }
  }

  lemma SealingTracks(hashOf: Body -> string, g: Accounts, n: Node, start: int, end: int, d: nat) returns (m: Node)
    requires TracksBut(g, n, d) && Sound(n) && Seal(hashOf, n, start, end).Success?
    ensures m == Seal(hashOf, n, start, end).value && TracksBut(g, m, d)
  {
    m := Seal(hashOf, n, start, end).value;
    var b := NewBlock(hashOf, NextHeight(n.blocks), start, end, TipHash(n.blocks), SortForBlock(n.mempool),
      n.miners).value;
    SealExtendsHistory(hashOf, n, start, end, b);
    BlockTreasuryTotals(b, n.mempool);
    BlockPays(b, n.mempool);
    ExtendedHistoryTracks(g, n, m, b, d);
  }

  /** `Block::new` refuses the queue: the window is empty or a memo does not validate. */
  predicate Refused(hashOf: Body -> string, n: Node, start: int, end: int) {
    NewBlock(hashOf, NextHeight(n.blocks), start, end, TipHash(n.blocks), SortForBlock(n.mempool), n.miners).Failure?
  }

  /** What one step drops of queued bridge credits, fees included. */
  function DroppedBy(hashOf: Body -> string, n: Node, step: Step): nat {
    if step.SealBlock? && !step.db.Unread? && Refused(hashOf, n, step.start, step.end) then Pending(n.mempool, TREASURY)
    else 0
  }

  /** What all refused seals of a run dropped. */
  ghost function Dropped(hashOf: Body -> string, n: Node, steps: seq<Step>): nat
    decreases |steps|
  {
    if steps == [] then 0
    else
      var before := steps[..|steps| - 1];
      Dropped(hashOf, n, before) + DroppedBy(hashOf, Run(hashOf, n, before), steps[|steps| - 1])
  }

  /** A block that is built also applies and is stored. */
  predicate WholeStep(hashOf: Body -> string, n: Node, step: Step) {
    step.SealBlock? ==>
      || step.db.Unread?
      || Refused(hashOf, n, step.start, step.end)
      || (step.db.Stores? && Seal(hashOf, n, step.start, step.end).Success?)
  }

  ghost predicate WholeSeals(hashOf: Body -> string, n: Node, steps: seq<Step>)
    decreases |steps|
  {
    steps == [] ||
    var before := steps[..|steps| - 1];
    WholeSeals(hashOf, n, before) && WholeStep(hashOf, Run(hashOf, n, before), steps[|steps| - 1])
  }

  lemma SealEnds(hashOf: Body -> string, n: Node, start: int, end: int, db: Db)
    ensures db.Unread? ==> SealAttempt(hashOf, n, start, end, db) == n
    ensures !db.Unread? && Refused(hashOf, n, start, end) ==>
        SealAttempt(hashOf, n, start, end, db) == n.(mempool := [])
    ensures db.Stores? && Seal(hashOf, n, start, end).Success? ==>
              SealAttempt(hashOf, n, start, end, db) == Seal(hashOf, n, start, end).value
  {
  }

  lemma StepTracks(hashOf: Body -> string, g: Accounts, n: Node, step: Step, d: nat) returns (m: Node, e: nat)
    requires TracksBut(g, n, d) && Sound(n) && !step.Activate? && WholeStep(hashOf, n, step)
    ensures m == Next(hashOf, n, step) && e == d + DroppedBy(hashOf, n, step) && TracksBut(g, m, e)
  {
    m, e := n, d;
    match step
    case Transfer(tx) =>
      if QueueTransaction(n, tx).Success? {
        QueueingTracks(g, n, tx, d);
        m := QueueTransaction(n, tx).value;
      }
    case BridgeCredit(r, amount, memoHash, now, id) =>
      if QueueBridgeCredit(n, r, amount, memoHash, now, id).Success? {
        BridgeCreditTracks(g, n, r, amount, memoHash, now, id, d);
        m := QueueBridgeCredit(n, r, amount, memoHash, now, id).value;
      }
    case SealBlock(start, end, db) =>
      m, e := SealStepTracks(hashOf, g, n, start, end, db, d);
  }

  lemma SealStepTracks(hashOf: Body -> string, g: Accounts, n: Node, start: int, end: int, db: Db, d: nat)
    returns (m: Node, e: nat)
    requires TracksBut(g, n, d) && Sound(n)
    requires db.Unread? || Refused(hashOf, n, start, end) || (db.Stores? && Seal(hashOf, n, start, end).Success?)
    ensures m == SealAttempt(hashOf, n, start, end, db) && TracksBut(g, m, e)
    ensures e == d + if !db.Unread? && Refused(hashOf, n, start, end) then Pending(n.mempool, TREASURY) else 0
  {
    SealEnds(hashOf, n, start, end, db);
    if db.Unread? {
      m, e := n, d;
    } else if Refused(hashOf, n, start, end) {
      m, e := DroppingTracks(g, n, d);
    } else {
      m := SealingTracks(hashOf, g, n, start, end, d);
      e := d;
    }
  }

  lemma LastStep(hashOf: Body -> string, n: Node, steps: seq<Step>)
    requires steps != []
    ensures
      var before, step := steps[..|steps| - 1], steps[|steps| - 1];
      var m := Run(hashOf, n, before);
      && Run(hashOf, n, steps) == Next(hashOf, m, step)
      && Dropped(hashOf, n, steps) == Dropped(hashOf, n, before) + DroppedBy(hashOf, m, step)
      && (WholeSeals(hashOf, n, steps) <==> WholeSeals(hashOf, n, before) && WholeStep(hashOf, m, step))
  {
  }

  lemma {:induction false} RunTracks(hashOf: Body -> string, g: Accounts, n: Node, steps: seq<Step>)
    returns (m: Node, d: nat)
    requires TracksBut(g, n, 0) && Sound(n) && NoActivation(steps) && WholeSeals(hashOf, n, steps)
    ensures m == Run(hashOf, n, steps) && d == Dropped(hashOf, n, steps) && TracksBut(g, m, d)
    decreases |steps|
  {
    if steps == [] {
      m, d := n, 0;
    } else {
      var before, step := steps[..|steps| - 1], steps[|steps| - 1];
      LastStep(hashOf, n, steps);
      var m0, d0 := RunTracks(hashOf, g, n, before);
      RunIsSound(hashOf, n, before);
      m, d := StepTracks(hashOf, g, m0, step, d0);
    }
  }

  /** The same account with other activation counters. */
  function Remark(accounts: Accounts, a: Address, activated: u64, total: u64): Accounts
    requires a in accounts
  {
    accounts[a := accounts[a].(activated := activated, totalActivated := total)]
  }

  lemma DebitsOne(e: Entry, a: Address)
    ensures Debits([e], a) == if e.Debit? && e.who == a then e.amount else 0
  {
    assert [e][1..] == [];
  }

  lemma OwnEntryRemark(accounts: Accounts, e: Entry, activated: u64, total: u64)
    requires e.who in accounts && ApplyEntry(accounts, e).Success?
    ensures ApplyEntry(Remark(accounts, e.who, activated, total), e) ==
            Success(Remark(ApplyEntry(accounts, e).value, e.who, SatSub(activated, Debits([e], e.who)), total))
  {
    DebitsOne(e, e.who);
    var acct := accounts[e.who];
    var marked := acct.(activated := activated, totalActivated := total);
    var x := ApplyEntry(accounts, e).value[e.who];
    var y := ApplyEntry(Remark(accounts, e.who, activated, total), e).value[e.who];
    assert Remark(accounts, e.who, activated, total)[e.who := y] == accounts[e.who := y];
    assert accounts[e.who := x][e.who := y] == accounts[e.who := y];
    match e
    case Debit(a, d) =>
      assert Spend(marked, d) == Spend(acct, d).(activated := SatSub(activated, d), totalActivated := total);
    case Credit(a, c) =>
      assert Receive(marked, c) == Receive(acct, c).(activated := SatSub(activated, 0), totalActivated := total);
  }

  lemma OtherEntryRemark(accounts: Accounts, e: Entry, a: Address, activated: u64, total: u64)
    requires a in accounts && a != e.who && ApplyEntry(accounts, e).Success?
    ensures ApplyEntry(Remark(accounts, a, activated, total), e) ==
            Success(Remark(ApplyEntry(accounts, e).value, a, SatSub(activated, Debits([e], a)), total))
  {
    DebitsOne(e, a);
    var marked := Remark(accounts, a, activated, total);
    assert Get(marked, e.who) == Get(accounts, e.who);
    var x := ApplyEntry(accounts, e).value[e.who];
    assert marked[e.who := x] == Remark(accounts[e.who := x], a, activated, total);
  }

  /** Activation counters never influence whether, or how, entries apply. */
  lemma {:induction false} ApplyRemark(accounts: Accounts, es: seq<Entry>, a: Address, activated: u64, total: u64)
    requires a in accounts && Apply(accounts, es).Success?
    ensures a in Apply(accounts, es).value
    ensures Apply(Remark(accounts, a, activated, total), es) ==
            Success(Remark(Apply(accounts, es).value, a, SatSub(activated, Debits(es, a)), total))
    decreases es
  {
    if es != [] {
      if es[0].who == a {
        OwnEntryRemark(accounts, es[0], activated, total);
      } else {
        OtherEntryRemark(accounts, es[0], a, activated, total);
      }
      var d := Debits([es[0]], a);
      assert [es[0]][1..] == [];
      assert Debits(es, a) == d + Debits(es[1..], a);
      ApplyRemark(ApplyEntry(accounts, es[0]).value, es[1..], a, SatSub(activated, d), total);
    }
  }

  function TreasuryNeed(p: nat): Amounts {
    if p == 0 then map[] else map[TREASURY := p]
  }

  lemma SameTops(t: Amounts, c: Amounts)
    requires forall a :: Top(t, a) == Top(c, a)
    requires (forall a :: a in t ==> t[a] > 0) && (forall a :: a in c ==> c[a] > 0)
    ensures t == c
  {
    forall a ensures a in t <==> a in c {
      assert Top(t, a) == Top(c, a);
    }
    forall a | a in t ensures t[a] == c[a] {
      assert Top(t, a) == Top(c, a);
    }
  }

  lemma PrefundIsAhead(g: Accounts, p: nat)
    requires Balance(g, TREASURY) + p <= U64_MAX
    ensures AntsAhead(Prefund(g, p), Sim(g, map[]), TreasuryNeed(p))
  {
  }

  /** Reconciliation tops up the treasury by exactly what the sealed credits took, and
      nobody else. */
  lemma ReconcileFundsTreasuryOnly(g: Accounts, n: Node)
    requires Tracks(g, n) && n.mempool == [] && BridgeDebits(n) <= U64_MAX
    ensures SimRun(Sim(g, map[]), ChainEntries(n.blocks)).Success?
    ensures SimRun(Sim(g, map[]), ChainEntries(n.blocks)).value.topUps == TreasuryNeed(BridgeDebits(n))
    ensures Balance(n.accounts, TREASURY) == 0
  {
    var p, es := BridgeDebits(n), ChainEntries(n.blocks);
    PrefundIsAhead(g, p);
    ReplayNeedsCredit(Prefund(g, p), Sim(g, map[]), TreasuryNeed(p), es);
    TopUpsHaveAccounts(Sim(g, map[]), es);
    ApplyBalance(Prefund(g, p), es, TREASURY);
    assert Balance(n.accounts, TREASURY) == 0;
    OnlyTreasuryToppedUp(n.accounts, SimRun(Sim(g, map[]), es).value, p);
  }

  lemma OnlyTreasuryToppedUp(live: Accounts, sim: Sim, p: nat)
    requires AntsAhead(live, sim, TreasuryNeed(p)) && Balance(live, TREASURY) == 0
    requires forall a :: a in sim.topUps ==> sim.topUps[a] > 0
    ensures sim.topUps == TreasuryNeed(p)
  {
    var t, c := sim.topUps, TreasuryNeed(p);
    assert Balance(live, TREASURY) + Top(t, TREASURY) == Balance(sim.accounts, TREASURY) + Top(c, TREASURY);
    forall a ensures Top(t, a) == Top(c, a) {
      assert Top(t, a) <= Top(c, a);
    }
    SameTops(t, c);
  }

  /** The replayed state: the live one, with the treasury's top-ups also counted as
      activated supply. */
  ghost function AfterRestart(n: Node): Accounts {
    var p := BridgeDebits(n);
    if p == 0 || TREASURY !in n.accounts then n.accounts
    else n.accounts[TREASURY := n.accounts[TREASURY].(totalActivated := SatAdd(n.accounts[TREASURY].totalActivated, p))]
  }

  lemma ReplayOfTracked(g: Accounts, n: Node)
    requires Tracks(g, n) && n.mempool == [] && BridgeDebits(n) <= U64_MAX
    requires Get(g, TREASURY).activated == 0 && Get(g, TREASURY).totalActivated == 0
    ensures ReplayEntries(g, ChainEntries(n.blocks)) == Success(AfterRestart(n))
    ensures BridgeDebits(n) > 0 ==> TREASURY in n.accounts && n.accounts[TREASURY].totalActivated == 0
  {
    var p := BridgeDebits(n);
    ReconcileFundsTreasuryOnly(g, n);
    if p == 0 {
      assert UpFront(g, TreasuryNeed(p)) == g;
    } else {
      FundedTreasuryReplays(g, n, p);
    }
  }

  lemma FundedTreasuryReplays(g: Accounts, n: Node, p: nat)
    requires Tracks(g, n) && n.mempool == [] && 0 < p == BridgeDebits(n) <= U64_MAX
    requires Get(g, TREASURY).activated == 0 && Get(g, TREASURY).totalActivated == 0
    ensures Apply(UpFront(g, TreasuryNeed(p)), ChainEntries(n.blocks)) == Success(AfterRestart(n))
    ensures TREASURY in n.accounts && n.accounts[TREASURY].totalActivated == 0
  {
    var es, live := ChainEntries(n.blocks), Prefund(g, p);
    TopUpIsPrefundRemarked(g, p);
    ApplyRemark(live, es, TREASURY, p, p);
    ApplyRecord(live, es, TREASURY);
    assert Get(n.accounts, TREASURY) == n.accounts[TREASURY];
    assert n.accounts[TREASURY].activated == 0 && n.accounts[TREASURY].totalActivated == 0;
    assert SatSub(p, Debits(es, TREASURY)) == 0;
    assert Remark(n.accounts, TREASURY, 0, p) == AfterRestart(n);
  }

  lemma TopUpIsPrefundRemarked(g: Accounts, p: nat)
    requires Balance(g, TREASURY) == 0 && 0 < p <= U64_MAX
    requires Get(g, TREASURY).activated == 0 && Get(g, TREASURY).totalActivated == 0
    ensures UpFront(g, TreasuryNeed(p)) == Remark(Prefund(g, p), TREASURY, p, p)
  {
  }

  lemma StartTracks(n: Node)
    requires n.mempool == [] && ChainEntries(n.blocks) == [] && TREASURY !in n.miners &&
        Balance(n.accounts, TREASURY) == 0
    ensures TracksBut(n.accounts, n, 0)
  {
    assert BridgeDebits(n) == 0;
    assert LeanOf(n.accounts, n, 0, n.accounts);
  }

  /** Main result: take any run of signed transfers, bridge credits and seals from a genesis without
      treasury funds, whatever these calls return, in which every block that is built also
      applies and is stored. Whenever the queue is empty a replay of the sealed blocks succeeds
      and leaves the treasury at zero; every other account agrees with the live one in all its
      fields, and the live treasury holds what refused seals dropped. So balances agree if and
      only if no refused seal dropped a bridge credit; and the states are identical if and only
      if, besides, none was sealed, because a replay top-up also counts as activation. */
  lemma RestartMatchesLive(hashOf: Body -> string, n: Node, steps: seq<Step>)
    requires Sound(n) && n.mempool == [] && ChainEntries(n.blocks) == [] && TREASURY !in n.miners
    requires Get(n.accounts, TREASURY) == EMPTY
    requires NoActivation(steps) && WholeSeals(hashOf, n, steps) && Run(hashOf, n, steps).mempool == []
    requires BridgeDebits(Run(hashOf, n, steps)) + Dropped(hashOf, n, steps) <= U64_MAX
    ensures
      var m, dropped := Run(hashOf, n, steps), Dropped(hashOf, n, steps);
      var replayed := ReplayEntries(n.accounts, ChainEntries(m.blocks));
      && replayed.Success?
      && Balance(replayed.value, TREASURY) == 0 && Balance(m.accounts, TREASURY) == dropped
      && (forall a :: a != TREASURY ==> Get(replayed.value, a) == Get(m.accounts, a))
      && ((forall a :: Balance(replayed.value, a) == Balance(m.accounts, a)) <==> dropped == 0)
      && (replayed == Success(m.accounts) <==> BridgeDebits(m) == 0 && dropped == 0)
  {
    var g := n.accounts;
    StartTracks(n);
    var m, dropped := RunTracks(hashOf, g, n, steps);
    var lean :| LeanOf(g, m, dropped, lean);
    var kept := m.(accounts := lean);
    assert Tracks(g, kept) by {
      assert BridgeDebits(kept) == BridgeDebits(m);
    }
    ReplayOfTracked(g, kept);
    LeanTreasury(g, m, dropped, lean);
    RestartCompared(m, kept, dropped);
  }

  lemma RestartCompared(m: Node, kept: Node, dropped: nat)
    requires m.mempool == [] && kept == m.(accounts := kept.accounts) && Balance(kept.accounts, TREASURY) == 0
    requires dropped <= U64_MAX && m.accounts == Prefund(kept.accounts, dropped)
    requires BridgeDebits(m) > 0 ==> TREASURY in kept.accounts && kept.accounts[TREASURY].totalActivated == 0
    requires BridgeDebits(m) <= U64_MAX
    ensures
      var replayed := AfterRestart(kept);
      && Balance(replayed, TREASURY) == 0 && Balance(m.accounts, TREASURY) == dropped
      && (forall a :: a != TREASURY ==> Get(replayed, a) == Get(m.accounts, a))
      && (replayed == m.accounts <==> BridgeDebits(m) == 0 && dropped == 0)
  {
    assert BridgeDebits(kept) == BridgeDebits(m);
    if BridgeDebits(m) > 0 {
      assert AfterRestart(kept)[TREASURY].totalActivated == BridgeDebits(m);
      assert Get(m.accounts, TREASURY).totalActivated == 0;
    }
  }

  lemma TwoSteps(hashOf: Body -> string, n: Node, s: Step, t: Step)
    ensures Run(hashOf, n, [s, t]) == Next(hashOf, Next(hashOf, n, s), t)
    ensures Dropped(hashOf, n, [s, t]) == DroppedBy(hashOf, n, s) + DroppedBy(hashOf, Next(hashOf, n, s), t)
    ensures WholeSeals(hashOf, n, [s, t]) <==> WholeStep(hashOf, n, s) && WholeStep(hashOf, Next(hashOf, n, s), t)
  {
    LastStep(hashOf, n, [s, t]);
    LastStep(hashOf, n, [s]);
    assert [s, t][..1] == [s] && [s][..0] == [];
  }

  /** What the lemmas below ask of a node that receives its first bridge credit. */
  ghost predicate ReadyForCredit(n: Node, recipient: Address, amount: u64) {
    && Sound(n) && n.mempool == [] && n.miners == [] && ChainEntries(n.blocks) == []
    && Get(n.accounts, TREASURY) == EMPTY
    && amount > 0 && Text.ValidWallet(recipient) && recipient != TREASURY
    && Supply(n.accounts) + amount + MIN_FEE_ANTS <= U64_MAX
  }

  lemma FundedSupply(accounts: Accounts, x: u64)
    requires Balance(accounts, TREASURY) + x <= U64_MAX
    ensures Supply(AddAnts(accounts, TREASURY, x)) == Supply(accounts) + x
  {
    SupplyUpdate(accounts, TREASURY, AddAnts(accounts, TREASURY, x)[TREASURY]);
  }

  lemma PendingOne(tx: Tx, a: Address)
    ensures Pending([tx], a) == if tx.from == a then tx.Debit() else 0
  {
    assert [] + [tx] == [tx] && Pending([], a) == 0;
    PendingAppend([], tx, a);
  }

  lemma CreditQueued(n: Node, recipient: Address, amount: u64, memoHash: string, id: string)
    requires n.mempool == [] && Balance(n.accounts, TREASURY) == 0
    requires amount > 0 && Text.ValidWallet(recipient) && recipient != TREASURY
    requires amount + MIN_FEE_ANTS <= U64_MAX && Supply(n.accounts) + amount + MIN_FEE_ANTS <= U64_MAX
    ensures
      var r := QueueBridgeCredit(n, recipient, amount, memoHash, 0, id);
      && r.Success? && r.value.mempool == [BridgeTx(recipient, amount, memoHash, 0, n.chainId, id)]
      && r.value.blocks == n.blocks && r.value.miners == n.miners
      && Supply(r.value.accounts) <= U64_MAX
  {
    FundedSupply(n.accounts, amount + MIN_FEE_ANTS);
    var tx := BridgeTx(recipient, amount, memoHash, 0, n.chainId, id);
    assert [] + [tx] == [tx];
  }

  /** Sealing a queue of one succeeds or refuses, by the memo alone. */
  lemma SealOfOne(hashOf: Body -> string, n: Node, tx: Tx)
    requires Sound(n) && n.mempool == [tx] && n.miners == [] && ChainEntries(n.blocks) == []
    requires Supply(n.accounts) <= U64_MAX
    ensures
      var m := SealAttempt(hashOf, n, 0, 1, Stores);
      && m.mempool == []
      && WholeStep(hashOf, n, SealBlock(0, 1, Stores))
      && DroppedBy(hashOf, n, SealBlock(0, 1, Stores)) == (if ValidMemo(tx.memo) then 0 else Pending([tx], TREASURY))
      && BridgeDebits(m) == if ValidMemo(tx.memo) then Pending([tx], TREASURY) else 0
  {
    SealEnds(hashOf, n, 0, 1, Stores);
    SealSucceeds(hashOf, n, 0, 1);
    SortedQueueIsReady(n.accounts, n.mempool);
    if ValidMemo(tx.memo) {
      SealedQueueDebits(hashOf, n, 0, 1);
    } else {
      assert Pending([], TREASURY) == 0 && Debits([], TREASURY) == 0;
    }
  }

  lemma SealedQueueDebits(hashOf: Body -> string, n: Node, start: int, end: int)
    requires Sound(n) && n.miners == [] && Seal(hashOf, n, start, end).Success? && ChainEntries(n.blocks) == []
    ensures
      var m := Seal(hashOf, n, start, end).value;
      m.mempool == [] && BridgeDebits(m) == Pending(n.mempool, TREASURY)
  {
    var m := Seal(hashOf, n, start, end).value;
    var b := m.blocks[|m.blocks| - 1];
    SealExtendsHistory(hashOf, n, start, end, b);
    BlockTreasuryTotals(b, n.mempool);
    ChainEntriesAppend(n.blocks, b);
    assert [] + BlockEntries(b) == BlockEntries(b);
    assert Pending([], TREASURY) == 0;
  }

  /** A step that leaves one queued transaction, then a seal, seen from the end. */
  lemma StepThenSeal(hashOf: Body -> string, n: Node, first: Step, m: Node, tx: Tx)
    requires m == Next(hashOf, n, first) && !first.SealBlock?
    requires Sound(m) && m.mempool == [tx] && m.miners == [] && ChainEntries(m.blocks) == []
    requires Supply(m.accounts) <= U64_MAX
    ensures
      var steps := [first, SealBlock(0, 1, Stores)];
      && WholeSeals(hashOf, n, steps) && Run(hashOf, n, steps).mempool == []
      && BridgeDebits(Run(hashOf, n, steps)) == (if ValidMemo(tx.memo) then Pending([tx], TREASURY) else 0)
      && Dropped(hashOf, n, steps) == if ValidMemo(tx.memo) then 0 else Pending([tx], TREASURY)
  {
    TwoSteps(hashOf, n, first, SealBlock(0, 1, Stores));
    SealOfOne(hashOf, m, tx);
  }

  lemma CreditThenSeal(hashOf: Body -> string, n: Node, recipient: Address, amount: u64, memoHash: string, id: string)
    requires ReadyForCredit(n, recipient, amount)
    ensures
      var steps := [BridgeCredit(recipient, amount, memoHash, 0, id), SealBlock(0, 1, Stores)];
      var ok := ValidMemo(BRIDGE_CREDIT_MEMO_PREFIX + memoHash);
      && WholeSeals(hashOf, n, steps) && Run(hashOf, n, steps).mempool == []
      && BridgeDebits(Run(hashOf, n, steps)) == (if ok then amount + MIN_FEE_ANTS else 0)
      && Dropped(hashOf, n, steps) == if ok then 0 else amount + MIN_FEE_ANTS
  {
    var tx := BridgeTx(recipient, amount, memoHash, 0, n.chainId, id);
    BalanceWithinSupply(n.accounts, TREASURY);
    CreditQueued(n, recipient, amount, memoHash, id);
    PendingOne(tx, TREASURY);
    var credited := QueueBridgeCredit(n, recipient, amount, memoHash, 0, id).value;
    assert Sound(credited) by {
      BridgeCreditKeepsSound(n, recipient, amount, memoHash, 0, id);
    }
    StepThenSeal(hashOf, n, BridgeCredit(recipient, amount, memoHash, 0, id), credited, tx);
  }

  /** Both conditions do fail, and one credit is enough. If its memo validates, the credit is sealed:
      balances survive a restart and the states still differ. If not, for instance because the
      hash is too long, the seal is refused: the live treasury keeps funds that no restart
      rebuilds. */
  lemma OneCreditTellsRestart(hashOf: Body -> string, n: Node, recipient: Address, amount: u64, memoHash: string,
                              id: string)
    requires ReadyForCredit(n, recipient, amount)
    ensures
      var m := Run(hashOf, n, [BridgeCredit(recipient, amount, memoHash, 0, id), SealBlock(0, 1, Stores)]);
      var replayed := ReplayEntries(n.accounts, ChainEntries(m.blocks));
      && replayed.Success? && replayed != Success(m.accounts)
      && Balance(replayed.value, TREASURY) == 0
      && Balance(m.accounts, TREASURY) ==
         if ValidMemo(BRIDGE_CREDIT_MEMO_PREFIX + memoHash) then 0 else amount + MIN_FEE_ANTS
  {
    BalanceWithinSupply(n.accounts, TREASURY);
    CreditThenSeal(hashOf, n, recipient, amount, memoHash, id);
    assert NoActivation([BridgeCredit(recipient, amount, memoHash, 0, id), SealBlock(0, 1, Stores)]);
    RestartMatchesLive(hashOf, n, [BridgeCredit(recipient, amount, memoHash, 0, id), SealBlock(0, 1, Stores)]);
  }
}
