/** What is in a block (src/state.rs:2210-2275, 2417-2425, src/block.rs:95-150), said of its fields: height,
    link, window, order of the transactions, fees and hash; over every run of calls. */
module BlockContents {
  import opened Ledger
  import opened Mempool
  import opened Ordering
  import opened Sums
  import Runs

  ghost predicate TextBefore(s: string, t: string) {
    ProperPrefix(s, t) || SmallerAtFirstDifference(s, t)
  }

  /** Earlier timestamp first, then the smaller sender, then the lower nonce, then the smaller hash. */
  ghost predicate InOrder(x: Tx, y: Tx) {
    || x.timestamp < y.timestamp
    || (x.timestamp == y.timestamp && TextBefore(x.from, y.from))
    || (x.timestamp == y.timestamp && x.from == y.from && x.nonce < y.nonce)
    || (x.timestamp == y.timestamp && x.from == y.from && x.nonce == y.nonce &&
        (HashText(x) == HashText(y) || TextBefore(HashText(x), HashText(y))))
  }

  function HashText(tx: Tx): string {
    match tx.auth
    case Legacy => ""
    case Signed(hash, _) => hash
  }

  lemma TxBeforeIs(x: Tx, y: Tx)
    ensures TxBefore(x, y) <==> InOrder(x, y)
  {
    LexLtIs(x.from, y.from);
    LexLtIs(HashText(x), HashText(y));
    LexTotal(HashText(x), HashText(y));
  }

  function FeesOf(txs: seq<Tx>): nat {
    if txs == [] then 0 else txs[0].fee + FeesOf(txs[1..])
  }

  lemma {:induction false} FeesSummed(txs: seq<Tx>)
    ensures FeesOf(txs) == SeqSum(txs, Fee())
  {
    if txs != [] {
      FeesSummed(txs[1..]);
    }
  }

  /** One more than the height before, as far as 64 bits go; 0 for the first block. */
  function HeightAfter(before: seq<Block>): nat {
    if before == [] then 0
    else
      var h := before[|before| - 1].body.height;
      if h == 0xFFFF_FFFF_FFFF_FFFF then h else h + 1
  }

  /** `b` follows the blocks before it. */
  predicate Follows(hashOf: Body -> string, before: seq<Block>, b: Block) {
    && b.body.height == HeightAfter(before)
    && b.body.previousHash == (if before == [] then "GENESIS" else before[|before| - 1].hash)
    && b.hash == hashOf(b.body)
  }

  /** Its own fields fit together. */
  predicate Consistent(b: Body) {
    && b.epochStart < b.epochEnd
    && b.totalFees == FeesOf(b.txs)
    && if b.miners == [] then b.feePerMiner == 0
       else b.feePerMiner * |b.miners| <= b.totalFees < (b.feePerMiner + 1) * |b.miners|
  }

  lemma ShareBounds(fees: nat, miners: nat)
    requires miners > 0
    ensures fees / miners * miners <= fees < (fees / miners + 1) * miners
  {
  }

  lemma BuiltBlock(hashOf: Body -> string, blocks: seq<Block>, start: int, end: int, txs: seq<Tx>, miners: seq<Address>)
    requires NewBlock(hashOf, NextHeight(blocks), start, end, TipHash(blocks), txs, miners).Success?
    ensures
      var b := NewBlock(hashOf, NextHeight(blocks), start, end, TipHash(blocks), txs, miners).value;
      && Follows(hashOf, blocks, b) && Consistent(b.body)
      && b.body.epochStart == start && b.body.epochEnd == end && b.body.txs == txs && b.body.miners == miners
  {
    FeesSummed(txs);
    if miners != [] {
      ShareBounds(FeesOf(txs), |miners|);
    }
  }

  /** Main result: a successful seal appends one block that follows the chain and has the given window,
      the current seats, and the queue rearranged by timestamp, sender, nonce and hash;
      transactions that agree in all four keep the order they were queued in. */
  lemma SealedBlock(hashOf: Body -> string, n: Node, start: int, end: int) returns (b: Block)
    requires Seal(hashOf, n, start, end).Success?
    ensures Seal(hashOf, n, start, end).value.blocks == n.blocks + [b]
    ensures Follows(hashOf, n.blocks, b) && Consistent(b.body)
    ensures b.body.epochStart == start && b.body.epochEnd == end && b.body.miners == n.miners
    ensures multiset(b.body.txs) == multiset(n.mempool)
    ensures forall i, j :: 0 <= i < j < |b.body.txs| ==> InOrder(b.body.txs[i], b.body.txs[j])
    ensures forall x :: Ties(b.body.txs, TxBefore, x) == Ties(n.mempool, TxBefore, x)
  {
    var txs := SortForBlock(n.mempool);
    b := NewBlock(hashOf, NextHeight(n.blocks), start, end, TipHash(n.blocks), txs, n.miners).value;
    BuiltBlock(hashOf, n.blocks, start, end, txs, n.miners);
    Runs.SortedQueue(n.mempool);
    forall i, j | 0 <= i < j < |txs| ensures InOrder(txs[i], txs[j]) {
      TxBeforeIs(txs[i], txs[j]);
    }
    Runs.TxBeforeIsPreorder();
    forall x ensures Ties(txs, TxBefore, x) == Ties(n.mempool, TxBefore, x) {
      SortIsStable(n.mempool, TxBefore, x);
    }
  }

  /** Every block beyond the first `from` follows those before it. */
  ghost predicate FollowsFrom(hashOf: Body -> string, blocks: seq<Block>, from: nat) {
    forall i :: from <= i < |blocks| ==> Follows(hashOf, blocks[..i], blocks[i]) && Consistent(blocks[i].body)
  }

  lemma StepFollows(hashOf: Body -> string, n: Node, step: Runs.Step, from: nat)
    requires from <= |n.blocks| && FollowsFrom(hashOf, n.blocks, from)
    ensures n.blocks <= Runs.Next(hashOf, n, step).blocks &&
        FollowsFrom(hashOf, Runs.Next(hashOf, n, step).blocks, from)
  {
    var m := Runs.Next(hashOf, n, step);
    if step.SealBlock? && step.db.Stores? && Seal(hashOf, n, step.start, step.end).Success? {
      var b := SealedBlock(hashOf, n, step.start, step.end);
      OneMoreFollows(hashOf, n.blocks, b, from);
    } else {
      NothingAppended(hashOf, n, step);
    }
  }

  lemma NothingAppended(hashOf: Body -> string, n: Node, step: Runs.Step)
    requires !(step.SealBlock? && step.db.Stores? && Seal(hashOf, n, step.start, step.end).Success?)
    ensures Runs.Next(hashOf, n, step).blocks == n.blocks
  {
  }

  lemma OneMoreFollows(hashOf: Body -> string, blocks: seq<Block>, b: Block, from: nat)
    requires from <= |blocks| && FollowsFrom(hashOf, blocks, from)
    requires Follows(hashOf, blocks, b) && Consistent(b.body)
    ensures FollowsFrom(hashOf, blocks + [b], from)
  {
    var all := blocks + [b];
    forall i | from <= i < |all| ensures Follows(hashOf, all[..i], all[i]) && Consistent(all[i].body) {
      assert all[..i] == blocks[..i];
      if i == |blocks| {
        assert blocks[..i] == blocks;
      }
    }
  }

  /** Main result: over any run of calls, whatever each returns, the chain only grows, and every block it
      gains follows the one before: the next height, its hash as the link, a hash of its own. */
  lemma {:induction false} RunsFollow(hashOf: Body -> string, n: Node, steps: seq<Runs.Step>)
    ensures n.blocks <= Runs.Run(hashOf, n, steps).blocks
    ensures FollowsFrom(hashOf, Runs.Run(hashOf, n, steps).blocks, |n.blocks|)
    decreases |steps|
  {
    if steps != [] {
      var before, step := steps[..|steps| - 1], steps[|steps| - 1];
      RunsFollow(hashOf, n, before);
      StepFollows(hashOf, Runs.Run(hashOf, n, before), step, |n.blocks|);
    }
  }

  /** Main result: so over a chain whose first block has height `h`, block `i` has height `h + i` while
      that fits 64 bits, and the greatest 64-bit number beyond. */
  lemma {:induction false} HeightsCount(hashOf: Body -> string, blocks: seq<Block>, i: nat)
    requires blocks != [] && FollowsFrom(hashOf, blocks, 1) && i < |blocks|
    ensures
      var h := blocks[0].body.height + i;
      blocks[i].body.height == if h <= 0xFFFF_FFFF_FFFF_FFFF then h else 0xFFFF_FFFF_FFFF_FFFF
  {
    if i > 0 {
      HeightsCount(hashOf, blocks, i - 1);
      assert blocks[..i][i - 1] == blocks[i - 1];
    }
  }

  /** For a node that starts from its genesis block. */
  lemma RunHeights(hashOf: Body -> string, n: Node, steps: seq<Runs.Step>, i: nat)
    requires |n.blocks| == 1 && i < |Runs.Run(hashOf, n, steps).blocks|
    ensures
      var h := n.blocks[0].body.height + i;
      Runs.Run(hashOf, n, steps).blocks[i].body.height ==
      if h <= 0xFFFF_FFFF_FFFF_FFFF then h else 0xFFFF_FFFF_FFFF_FFFF
  {
    RunsFollow(hashOf, n, steps);
    HeightsCount(hashOf, Runs.Run(hashOf, n, steps).blocks, i);
  }

  // --- what a block does to a balance ---------------------------------------------

  /** What the transactions of a block bring to, and take from, one address. */
  function Received(txs: seq<Tx>, a: Address): nat {
    if txs == [] then 0 else (if txs[0].to == a then txs[0].amount else 0) + Received(txs[1..], a)
  }

  function Paid(txs: seq<Tx>, a: Address): nat {
    if txs == [] then 0 else (if txs[0].from == a then txs[0].amount + txs[0].fee else 0) + Paid(txs[1..], a)
  }

  /** How many seats an address has. */
  function Seats(miners: seq<Address>, a: Address): nat {
    if miners == [] then 0 else (if miners[0] == a then 1 else 0) + Seats(miners[1..], a)
  }

  /** What its fees bring to one address: a share for every seat; the reserve gets what does not divide, or
      everything without seats. */
  function FeesFor(b: Body, a: Address): nat {
    Seats(b.miners, a) * b.feePerMiner +
    if a != "__tpow_fee_reserve__" then 0
    else if b.miners == [] then b.totalFees
    else b.totalFees % |b.miners|
  }

  lemma {:induction false} TransfersMove(txs: seq<Tx>, a: Address)
    ensures Credits(TxEntries(txs), a) == Received(txs, a) && Debits(TxEntries(txs), a) == Paid(txs, a)
  {
    if txs != [] {
      var tx := txs[0];
      TransfersMove(txs[1..], a);
      SumsConcat(TxPair(tx), TxEntries(txs[1..]), a);
      TransferMoves(tx, a);
    }
  }

  lemma TransferMoves(tx: Tx, a: Address)
    ensures Credits(TxPair(tx), a) == (if tx.to == a then tx.amount else 0)
    ensures Debits(TxPair(tx), a) == (if tx.from == a then tx.amount + tx.fee else 0)
  {
    var es := TxPair(tx);
    assert es[1..] == [Credit(tx.to, tx.amount)] && es[1..][1..] == [];
    assert Credits(es[1..], a) == (if tx.to == a then tx.amount else 0) + Credits(es[1..][1..], a);
    assert Debits(es, a) == (if tx.from == a then tx.Debit() else 0) + Debits(es[1..], a);
  }

  lemma {:induction false} SharesMove(miners: seq<Address>, share: nat, a: Address)
    ensures Credits(MinerEntries(miners, share), a) == Seats(miners, a) * share
    ensures Debits(MinerEntries(miners, share), a) == 0
  {
    if miners != [] {
      SharesMove(miners[1..], share, a);
      var es := MinerEntries(miners, share);
      assert es[1..] == MinerEntries(miners[1..], share);
    }
  }

  lemma OneCreditMoves(to: Address, x: nat, a: Address)
    ensures Credits([Credit(to, x)], a) == (if to == a then x else 0) && Debits([Credit(to, x)], a) == 0
  {
    assert [Credit(to, x)][1..] == [];
  }

  lemma FeesMove(b: Body, a: Address)
    requires Consistent(b)
    ensures Credits(FeeEntries(b), a) == FeesFor(b, a) && Debits(FeeEntries(b), a) == 0
  {
    OneCreditMoves(FEE_RESERVE, b.totalFees, a);
    if b.miners != [] {
      var rest := b.totalFees % |b.miners|;
      var tail := if rest > 0 then [Credit(FEE_RESERVE, rest)] else [];
      SharesMove(b.miners, b.feePerMiner, a);
      OneCreditMoves(FEE_RESERVE, rest, a);
      SumsConcat(MinerEntries(b.miners, b.feePerMiner), tail, a);
    }
  }

  /** Main result: applying a block moves every balance by what its transactions bring and take, and the
      fees by share: nothing else changes hands. */
  lemma BlockMoves(accounts: Accounts, b: Block, a: Address)
    requires Consistent(b.body) && Apply(accounts, BlockEntries(b)).Success?
    ensures Balance(Apply(accounts, BlockEntries(b)).value, a) ==
            Balance(accounts, a) + Received(b.body.txs, a) + FeesFor(b.body, a) - Paid(b.body.txs, a)
  {
    ApplyBalance(accounts, BlockEntries(b), a);
    TransfersMove(b.body.txs, a);
    FeesMove(b.body, a);
    SumsConcat(TxEntries(b.body.txs), FeeEntries(b.body), a);
  }
}
