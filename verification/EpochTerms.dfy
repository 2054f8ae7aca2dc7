/** Windows, polls and the check at start-up in plain conditions (src/consensus.rs:11-49,
    src/state.rs:2199-2208, 2505-2569). */
module EpochTerms {
  import opened Ledger
  import opened Mempool
  import opened Consensus
  import Acceptance
  import BlockContents

  function Length(epochSeconds: u64): nat {
    if epochSeconds == 0 then 1 else epochSeconds
  }

  lemma FloorSeconds(now: int, e: nat, k: int)
    requires e > 0 && k * e * 1_000_000_000 <= now < (k + 1) * e * 1_000_000_000
    ensures k * e <= now / 1_000_000_000 < (k + 1) * e
  {
    var seconds := now / 1_000_000_000;
    assert seconds * 1_000_000_000 <= now < (seconds + 1) * 1_000_000_000;
  }

  lemma FloorEpoch(seconds: int, e: nat, k: int)
    requires e > 0 && k * e <= seconds < (k + 1) * e
    ensures seconds - seconds % e == k * e
  {
    var q := seconds / e;
    assert seconds == q * e + seconds % e && 0 <= seconds % e < e;
    assert e * q < e * (k + 1) && e * k < e * (q + 1);
    Below(e, q, k + 1);
    Below(e, k, q + 1);
  }

  /** The one multiple of the epoch length, counted from the Unix epoch, whose span holds an instant. */
  lemma EpochOf(now: int, e: nat) returns (k: int)
    requires e > 0
    ensures k * e * 1_000_000_000 <= now < (k + 1) * e * 1_000_000_000
  {
    var span := e * 1_000_000_000;
    k := now / span;
    assert k * span <= now < k * span + span && k * span + span == (k + 1) * span;
    assert k * span == k * e * 1_000_000_000 && (k + 1) * span == (k + 1) * e * 1_000_000_000;
  }

  /** Main result: the window of an instant is the multiple of the epoch length, counted from the Unix epoch,
      that holds it; an epoch of zero seconds counts as one. */
  lemma WindowIs(now: int, epochSeconds: u64) returns (k: int)
    ensures k * Length(epochSeconds) * 1_000_000_000 <= now < (k + 1) * Length(epochSeconds) * 1_000_000_000
    ensures CurrentEpochWindow(now, epochSeconds) ==
            (k * Length(epochSeconds) * 1_000_000_000, (k + 1) * Length(epochSeconds) * 1_000_000_000)
  {
    var e := Length(epochSeconds);
    k := EpochOf(now, e);
    FloorSeconds(now, e, k);
    FloorEpoch(now / 1_000_000_000, e, k);
    assert k * e + e == (k + 1) * e;
  }

  /** Whether a queue can be built into a block. */
  predicate Buildable(t: Tick) {
    && t.stored
    && (forall i :: 0 <= i < |t.txs| ==>
                      var tx := t.txs[i]; Acceptance.IsTransfer(tx) && (tx.auth.Legacy? || tx.auth.genuine))
    && BlockContents.FeesOf(t.txs) <= 0xFFFF_FFFF_FFFF_FFFF
  }

  /** Main result: one poll does nothing while stopped, without work, or when the last block already has the
      window of this instant; otherwise it appends the block of that window that follows the chain,
      or stops for good if the queue does not build or the block is not stored. */
  lemma TickIs(h: Hashing, s: Loop, t: Tick, epochSeconds: u64)
    ensures
      var (start, end) := CurrentEpochWindow(t.now, epochSeconds);
      var after := OnTick(h, s, t, epochSeconds);
      if !s.running || !t.work || (s.chain != [] && s.chain[|s.chain| - 1].body.epochStart == start) then after == s
      else if !Buildable(t) then after == Loop(s.chain, false)
      else
        && after.running && |after.chain| == |s.chain| + 1 && s.chain <= after.chain
        && var b := after.chain[|s.chain|];
          && BlockContents.Follows(h.current, s.chain, b) && BlockContents.Consistent(b.body)
          && b.body.epochStart == start && b.body.epochEnd == end && b.body.txs == t.txs && b.body.miners == t.miners
  {
    var (start, end) := CurrentEpochWindow(t.now, epochSeconds);
    WindowsPartition(t.now, t.now, epochSeconds);
    BlockContents.FeesSummed(t.txs);
    forall i | 0 <= i < |t.txs|
      ensures Valid(t.txs[i]) <==> Acceptance.IsTransfer(t.txs[i]) && (t.txs[i].auth.Legacy? || t.txs[i].auth.genuine)
    {
      Acceptance.ValidIs(t.txs[i]);
    }
    var made := NewBlock(h.current, NextHeight(s.chain), start, end, TipHash(s.chain), t.txs, t.miners);
    if made.Success? {
      BlockContents.BuiltBlock(h.current, s.chain, start, end, t.txs, t.miners);
    }
  }

  lemma TickFollows(h: Hashing, s: Loop, t: Tick, epochSeconds: u64, from: nat)
    requires from <= |s.chain| && BlockContents.FollowsFrom(h.current, s.chain, from)
    ensures s.chain <= OnTick(h, s, t, epochSeconds).chain
    ensures BlockContents.FollowsFrom(h.current, OnTick(h, s, t, epochSeconds).chain, from)
  {
    TickIs(h, s, t, epochSeconds);
    var after := OnTick(h, s, t, epochSeconds).chain;
    if after != s.chain {
      assert after == s.chain + [after[|s.chain|]];
      BlockContents.OneMoreFollows(h.current, s.chain, after[|s.chain|], from);
    }
  }

  /** Main result: in whatever chain the loop produces from a genesis block, every later block follows the
      one before, so block `i` has the height of genesis plus `i` while that fits 64 bits. */
  lemma {:induction false} ProducedFollows(h: Hashing, genesis: Block, ticks: seq<Tick>, epochSeconds: u64)
    ensures
      var chain := Produced(h, genesis, ticks, epochSeconds).chain;
      && chain != [] && chain[0] == genesis && BlockContents.FollowsFrom(h.current, chain, 1)
    decreases |ticks|
  {
    if ticks != [] {
      ProducedFollows(h, genesis, ticks[..|ticks| - 1], epochSeconds);
      TickFollows(h, Produced(h, genesis, ticks[..|ticks| - 1], epochSeconds), ticks[|ticks| - 1], epochSeconds, 1);
    }
  }

  lemma ProducedHeights(h: Hashing, genesis: Block, ticks: seq<Tick>, epochSeconds: u64, i: nat)
    requires i < |Produced(h, genesis, ticks, epochSeconds).chain|
    ensures
      var height := genesis.body.height + i;
      Produced(h, genesis, ticks, epochSeconds).chain[i].body.height ==
      if height <= 0xFFFF_FFFF_FFFF_FFFF then height else 0xFFFF_FFFF_FFFF_FFFF
  {
    ProducedFollows(h, genesis, ticks, epochSeconds);
    BlockContents.HeightsCount(h.current, Produced(h, genesis, ticks, epochSeconds).chain, i);
  }

  /** A block by itself: its window is not empty, its transactions are proper, and its hash is of the current
      format or, unless the operator refuses those, of one of the three older ones. */
  predicate Proper(h: Hashing, b: Block) {
    && b.body.epochStart < b.body.epochEnd
    && (forall i :: 0 <= i < |b.body.txs| ==>
                      var tx := b.body.txs[i]; Acceptance.IsTransfer(tx) && (tx.auth.Legacy? || tx.auth.genuine))
    && (|| b.hash == h.current(b.body)
        || (!h.rejectLegacy &&
            (b.hash == h.nonCanonical(b.body) || b.hash == h.preEvents(b.body) || b.hash == h.oldTxShape(b.body))))
  }

  lemma ProperIs(h: Hashing, b: Block)
    ensures ValidBlock(h, b) <==> Proper(h, b)
  {
    forall i | 0 <= i < |b.body.txs|
      ensures
        var tx := b.body.txs[i];
        Valid(tx) <==> Acceptance.IsTransfer(tx) && (tx.auth.Legacy? || tx.auth.genuine)
    {
      Acceptance.ValidIs(b.body.txs[i]);
    }
  }

  /** Block `i` of a chain is proper, links to the block before, or to "GENESIS", and starts no earlier than
      that one ends. */
  predicate InPlace(h: Hashing, chain: seq<Block>, i: nat)
    requires i < |chain|
  {
    && Proper(h, chain[i])
    && chain[i].body.previousHash == (if i == 0 then "GENESIS" else chain[i - 1].hash)
    && (i > 0 ==> chain[i - 1].body.epochEnd <= chain[i].body.epochStart)
  }

  /** Main result: a stored chain passes the check at start-up if and only if every block is in place. Heights
      are not looked at. */
  lemma ValidSequenceIs(h: Hashing, chain: seq<Block>)
    ensures ValidSequence(h, chain) <==> forall i :: 0 <= i < |chain| ==> InPlace(h, chain, i)
  {
    forall i | 0 <= i < |chain| ensures ValidBlock(h, chain[i]) <==> Proper(h, chain[i]) {
      ProperIs(h, chain[i]);
    }
    if forall i :: 0 <= i < |chain| ==> InPlace(h, chain, i) {
      forall i | 0 <= i < |chain| ensures ValidBlock(h, chain[i]) {
        assert InPlace(h, chain, i);
      }
      assert chain != [] ==> InPlace(h, chain, 0);
      forall i | 0 < i < |chain|
        ensures chain[i].body.previousHash == chain[i - 1].hash
        ensures chain[i - 1].body.epochEnd <= chain[i].body.epochStart
      {
        assert InPlace(h, chain, i);
      }
    }
  }
}
