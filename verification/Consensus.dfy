/** Epoch windows and the sealing loop (src/consensus.rs:11-49) against the check a restart
    makes (src/state.rs:2505-2569). Times are nanoseconds, negative ones included. */
module Consensus {
  import opened Wrappers
  import opened Ledger
  import opened Mempool
  import opened Sums

  const NANOS := 1_000_000_000

  function EpochLength(epochSeconds: u64): nat {
    if epochSeconds == 0 then 1 else epochSeconds
  }

  /** `current_epoch_window`: the start rounds down to a multiple of the epoch. */
  function CurrentEpochWindow(now: int, epochSeconds: u64): (int, int) {
    var e := EpochLength(epochSeconds);
    var seconds := now / NANOS;
    var start := seconds - seconds % e;
    (start * NANOS, (start + e) * NANOS)
  }

  lemma SecondsWithin(now: int)
    ensures (now / NANOS) * NANOS <= now < (now / NANOS + 1) * NANOS
  {
  }

  lemma ScaleMono(a: int, b: int)
    requires a <= b
    ensures a * NANOS <= b * NANOS
  {
  }

  /** Main result: a window contains its instant, and of two instants in order the windows
      are the same or the first ends before the second starts. */
  lemma WindowsPartition(now: int, later: int, epochSeconds: u64)
    requires now <= later
    ensures
      var (s, t) := CurrentEpochWindow(now, epochSeconds);
      var (u, v) := CurrentEpochWindow(later, epochSeconds);
      && s <= now < t && t - s == EpochLength(epochSeconds) * NANOS
      && ((s, t) == (u, v) || t <= u)
  {
    var e := EpochLength(epochSeconds);
    var a, b := now / NANOS, later / NANOS;
    SecondsWithin(now);
    SecondsWithin(later);
    var s, u := a - a % e, b - b % e;
    ScaleMono(s, a);
    ScaleMono(a + 1, s + e);
    assert a <= b;
    FloorsApart(a, b, e);
    if s != u {
      ScaleMono(s + e, u);
    }
  }

  lemma FloorsApart(a: int, b: int, e: int)
    requires e > 0 && a <= b
    ensures a - a % e == b - b % e || a - a % e + e <= b - b % e
  {
    var p, q := a / e, b / e;
    assert a - a % e == e * p && b - b % e == e * q;
    Below(e, p, q + 1);
    if p < q {
      Scale(e, p + 1, q);
    }
  }

  lemma Scale(e: int, p: int, q: int)
    requires e > 0 && p <= q
    ensures e * p <= e * q
  {
  }

  lemma Below(e: int, p: int, q: int)
    requires e > 0 && e * p < e * q
    ensures p < q
  {
    if q <= p {
      Scale(e, q, p);
    }
  }

  /** How blocks are hashed: the current format, the three that older chains used, and whether the
      operator refuses those. */
  datatype Hashing = Hashing(
    current: Body -> string,
    nonCanonical: Body -> string,
    preEvents: Body -> string,
    oldTxShape: Body -> string,
    rejectLegacy: bool)

  /** `validate_hash`. */
  predicate ValidHash(h: Hashing, b: Block) {
    if b.hash == h.current(b.body) then true
    else if h.rejectLegacy then false
    else b.hash == h.nonCanonical(b.body) || b.hash == h.preEvents(b.body) || b.hash == h.oldTxShape(b.body)
  }

  /** One pass of the loop: the clock reading, what there is to seal, if anything, and whether
      the ledger and the database would take the block. */
  datatype Tick = Tick(now: int, work: bool, txs: seq<Tx>, miners: seq<Address>, stored: bool)

  /** The loop ends at the first error of `create_block`. */
  datatype Loop = Loop(chain: seq<Block>, running: bool)

  predicate Sealable(t: Tick) {
    t.stored && (forall i :: 0 <= i < |t.txs| ==> Valid(t.txs[i])) && SeqSum(t.txs, Fee()) <= U64_MAX
  }

  predicate ClockRuns(ticks: seq<Tick>) {
    forall i, j :: 0 <= i < j < |ticks| ==> ticks[i].now <= ticks[j].now
  }

  function HasBlockInEpoch(chain: seq<Block>, start: int): bool {
    chain != [] && chain[|chain| - 1].body.epochStart == start
  }

  function OnTick(h: Hashing, s: Loop, t: Tick, epochSeconds: u64): Loop {
    var (start, end) := CurrentEpochWindow(t.now, epochSeconds);
    if !s.running || !t.work || HasBlockInEpoch(s.chain, start) then s
    else
      var made := NewBlock(h.current, NextHeight(s.chain), start, end, TipHash(s.chain), t.txs, t.miners);
      if made.Failure? || !t.stored then s.(running := false) else s.(chain := s.chain + [made.value])
  }

  function AllTicks(h: Hashing, s: Loop, ticks: seq<Tick>, epochSeconds: u64): Loop
    decreases |ticks|
  {
    if ticks == [] then s
    else OnTick(h, AllTicks(h, s, ticks[..|ticks| - 1], epochSeconds), ticks[|ticks| - 1], epochSeconds)
  }

  function Produced(h: Hashing, genesis: Block, ticks: seq<Tick>, epochSeconds: u64): Loop {
    AllTicks(h, Loop([genesis], true), ticks, epochSeconds)
  }

  predicate ValidBlock(h: Hashing, b: Block) {
    && b.body.epochStart < b.body.epochEnd
    && (forall i :: 0 <= i < |b.body.txs| ==> Valid(b.body.txs[i]))
    && ValidHash(h, b)
  }

  /** `validate_block_sequence`; height labels are not checked. */
  predicate ValidSequence(h: Hashing, chain: seq<Block>) {
    && (forall i :: 0 <= i < |chain| ==> ValidBlock(h, chain[i]))
    && (chain != [] ==> chain[0].body.previousHash == GENESIS)
    && (forall i :: 0 < i < |chain| ==> chain[i].body.previousHash == chain[i - 1].hash)
    && (forall i :: 0 < i < |chain| ==> chain[i - 1].body.epochEnd <= chain[i].body.epochStart)
  }

  /** The checks on one block, given what the loop remembers of the block before. */
  predicate FitsAfter(h: Hashing, b: Block, previousHash: string, previousEnd: Option<int>) {
    && ValidBlock(h, b)
    && b.body.previousHash == previousHash
    && (previousEnd.None? || previousEnd.value <= b.body.epochStart)
  }

  function LastEnd(chain: seq<Block>): Option<int> {
    if chain == [] then None else Some(chain[|chain| - 1].body.epochEnd)
  }

  lemma ValidAppend(h: Hashing, chain: seq<Block>, b: Block)
    ensures ValidSequence(h, chain + [b]) <==>
            ValidSequence(h, chain) && FitsAfter(h, b, TipHash(chain), LastEnd(chain))
  {
    var all := chain + [b];
    assert forall i :: 0 <= i < |chain| ==> all[i] == chain[i];
    assert all[|chain|] == b;
    if ValidSequence(h, all) {
      assert ValidBlock(h, all[|chain|]);
      assert |chain| > 0 ==> all[|chain|].body.previousHash == all[|chain| - 1].hash;
      forall i | 0 <= i < |chain| ensures ValidBlock(h, chain[i]) {
        assert ValidBlock(h, all[i]);
      }
    }
  }

  lemma {:induction false} InvalidPrefix(h: Hashing, chain: seq<Block>, k: nat)
    requires k <= |chain| && !ValidSequence(h, chain[..k])
    ensures !ValidSequence(h, chain)
    decreases |chain| - k
  {
    if k == |chain| {
      assert chain[..k] == chain;
    } else {
      assert chain[..k] + [chain[k]] == chain[..k + 1];
      ValidAppend(h, chain[..k], chain[k]);
      InvalidPrefix(h, chain, k + 1);
    }
  }

  method ValidateBlockSequence(h: Hashing, blocks: seq<Block>) returns (ok: bool)
    ensures ok <==> ValidSequence(h, blocks)
  {
    var previousHash := GENESIS;
    var previousEnd: Option<int> := None;
    for i := 0 to |blocks|
      invariant ValidSequence(h, blocks[..i])
      invariant previousHash == TipHash(blocks[..i]) && previousEnd == LastEnd(blocks[..i])
    {
      assert blocks[..i] + [blocks[i]] == blocks[..i + 1];
      ValidAppend(h, blocks[..i], blocks[i]);
      if !FitsAfter(h, blocks[i], previousHash, previousEnd) {
        InvalidPrefix(h, blocks, i + 1);
        return false;
      }
      previousHash := blocks[i].hash;
      previousEnd := Some(blocks[i].body.epochEnd);
    }
    assert blocks[..|blocks|] == blocks;
    return true;
  }

  /** Everything `ValidSequence` asks, except that a window may overlap the genesis block. */
  ghost predicate WellSealed(h: Hashing, chain: seq<Block>) {
    && chain != []
    && (forall i :: 0 <= i < |chain| ==> ValidBlock(h, chain[i]))
    && chain[0].body.previousHash == GENESIS
    && (forall i :: 0 < i < |chain| ==> chain[i].body.previousHash == chain[i - 1].hash)
    && (forall i :: 1 < i < |chain| ==> chain[i - 1].body.epochEnd <= chain[i].body.epochStart)
  }

  /** The last sealed window is that of some earlier instant. */
  ghost predicate LastWindow(chain: seq<Block>, epochSeconds: u64, now: int) {
    |chain| > 1 ==>
      exists earlier :: earlier <= now &&
                      CurrentEpochWindow(earlier, epochSeconds) ==
                        (chain[|chain| - 1].body.epochStart, chain[|chain| - 1].body.epochEnd)
  }

  lemma SealedOneMore(h: Hashing, chain: seq<Block>, b: Block)
    requires WellSealed(h, chain) && ValidBlock(h, b) && b.body.previousHash == TipHash(chain)
    requires |chain| > 1 ==> chain[|chain| - 1].body.epochEnd <= b.body.epochStart
    ensures WellSealed(h, chain + [b])
  {
  }

  /** A window in which the loop does seal lies after the last sealed one. */
  lemma NextWindowIsLater(chain: seq<Block>, epochSeconds: u64, now: int)
    requires |chain| > 1 && LastWindow(chain, epochSeconds, now)
    requires !HasBlockInEpoch(chain, CurrentEpochWindow(now, epochSeconds).0)
    ensures chain[|chain| - 1].body.epochEnd <= CurrentEpochWindow(now, epochSeconds).0
  {
    var earlier :| earlier <= now &&
                 CurrentEpochWindow(earlier, epochSeconds) ==
                   (chain[|chain| - 1].body.epochStart, chain[|chain| - 1].body.epochEnd);
    WindowsPartition(earlier, now, epochSeconds);
  }

  lemma TickSeals(h: Hashing, s: Loop, t: Tick, epochSeconds: u64)
    requires WellSealed(h, s.chain) && LastWindow(s.chain, epochSeconds, t.now)
    ensures WellSealed(h, OnTick(h, s, t, epochSeconds).chain)
    ensures LastWindow(OnTick(h, s, t, epochSeconds).chain, epochSeconds, t.now)
    ensures s.chain <= OnTick(h, s, t, epochSeconds).chain
  {
    var (start, end) := CurrentEpochWindow(t.now, epochSeconds);
    if s.running && t.work && !HasBlockInEpoch(s.chain, start) {
      var made := NewBlock(h.current, NextHeight(s.chain), start, end, TipHash(s.chain), t.txs, t.miners);
      if made.Success? && t.stored {
        if |s.chain| > 1 {
          NextWindowIsLater(s.chain, epochSeconds, t.now);
        }
        SealedOneMore(h, s.chain, made.value);
      }
    }
  }

  lemma {:induction false} TicksSeal(h: Hashing, genesis: Block, ticks: seq<Tick>, epochSeconds: u64, now: int)
    requires ClockRuns(ticks) && forall i :: 0 <= i < |ticks| ==> ticks[i].now <= now
    requires ValidSequence(h, [genesis])
    ensures WellSealed(h, Produced(h, genesis, ticks, epochSeconds).chain)
    ensures LastWindow(Produced(h, genesis, ticks, epochSeconds).chain, epochSeconds, now)
    ensures Produced(h, genesis, ticks, epochSeconds).chain[0] == genesis
    decreases |ticks|
  {
    if ticks != [] {
      var before, t := ticks[..|ticks| - 1], ticks[|ticks| - 1];
      TicksSeal(h, genesis, before, epochSeconds, t.now);
      TickSeals(h, Produced(h, genesis, before, epochSeconds), t, epochSeconds);
    }
  }

  /** What a loop that starts from a lone genesis block does first: seal in some window, or stop
      because that seal fails. */
  datatype First = Nothing | Stops | Seals(start: int)

  function FirstAct(genesis: Block, ticks: seq<Tick>, epochSeconds: u64): First {
    if ticks == [] then Nothing
    else
      var start := CurrentEpochWindow(ticks[0].now, epochSeconds).0;
      if !ticks[0].work || start == genesis.body.epochStart then FirstAct(genesis, ticks[1..], epochSeconds)
      else if Sealable(ticks[0]) then Seals(start)
      else Stops
  }

  lemma {:induction false} FirstActIsSecondBlock(h: Hashing, genesis: Block, ticks: seq<Tick>, epochSeconds: u64)
    ensures
      var s := Produced(h, genesis, ticks, epochSeconds);
      match FirstAct(genesis, ticks, epochSeconds)
      case Nothing => s == Loop([genesis], true)
      case Stops => s == Loop([genesis], false)
      case Seals(start) => |s.chain| > 1 && s.chain[1].body.epochStart == start
    decreases |ticks|
  {
    if ticks != [] {
      var before, t := ticks[..|ticks| - 1], ticks[|ticks| - 1];
      FirstActIsSecondBlock(h, genesis, before, epochSeconds);
      FirstActAppend(genesis, before, t, epochSeconds);
      assert ticks == before + [t];
      WindowsPartition(t.now, t.now, epochSeconds);
    }
  }

  lemma {:induction false} FirstActAppend(genesis: Block, before: seq<Tick>, t: Tick, epochSeconds: u64)
    ensures FirstAct(genesis, before + [t], epochSeconds) ==
      if FirstAct(genesis, before, epochSeconds).Nothing? then FirstAct(genesis, [t], epochSeconds)
      else FirstAct(genesis, before, epochSeconds)
  {
    if before == [] {
      assert before + [t] == [t];
    } else {
      assert (before + [t])[1..] == before[1..] + [t];
      FirstActAppend(genesis, before[1..], t, epochSeconds);
    }
  }

  /** Main result: under a clock that never runs back, and whatever the queues hold at the polls,
      the chain the loop produces passes the restart check if and only if the first window it
      seals, if it does seal one, does not start before the genesis block ends. */
  lemma ProducedChainValidates(h: Hashing, genesis: Block, ticks: seq<Tick>, epochSeconds: u64)
    requires ClockRuns(ticks) && ValidSequence(h, [genesis])
    ensures ValidSequence(h, Produced(h, genesis, ticks, epochSeconds).chain) <==>
            (FirstAct(genesis, ticks, epochSeconds).Seals? ==>
               genesis.body.epochEnd <= FirstAct(genesis, ticks, epochSeconds).start)
  {
    var now := if ticks == [] then 0 else ticks[|ticks| - 1].now;
    TicksSeal(h, genesis, ticks, epochSeconds, now);
    FirstActIsSecondBlock(h, genesis, ticks, epochSeconds);
    var chain := Produced(h, genesis, ticks, epochSeconds).chain;
    if |chain| > 1 {
      assert chain[1 - 1] == genesis;
    }
  }

  /** The condition does fail in practice: a genesis at 101 s with one-minute epochs. */
  lemma UnalignedGenesisOverlaps(h: Hashing, genesis: Block, t: Tick)
    requires ValidSequence(h, [genesis])
    requires genesis.body.epochStart == 101 * NANOS && genesis.body.epochEnd == 102 * NANOS
    requires t.work && t.now == 103 * NANOS
    ensures !ValidSequence(h, Produced(h, genesis, [t], 60).chain) <==> Sealable(t)
  {
    ProducedChainValidates(h, genesis, [t], 60);
    assert CurrentEpochWindow(t.now, 60).0 == 60 * NANOS;
  }

  /** `run_consensus` over a finite series of polls. */
  method RunConsensus(h: Hashing, genesis: Block, ticks: seq<Tick>, epochSeconds: u64)
    returns (chain: seq<Block>, ok: bool)
    ensures Loop(chain, ok) == Produced(h, genesis, ticks, epochSeconds)
  {
    chain := [genesis];
    for i := 0 to |ticks|
      invariant Loop(chain, true) == Produced(h, genesis, ticks[..i], epochSeconds)
    {
      var t := ticks[i];
      var (start, end) := CurrentEpochWindow(t.now, epochSeconds);
      assert ticks[..i + 1][..i] == ticks[..i];
      if t.work && !HasBlockInEpoch(chain, start) {
        var made := NewBlock(h.current, NextHeight(chain), start, end, TipHash(chain), t.txs, t.miners);
        if made.Failure? || !t.stored {
          StoppedStays(h, genesis, ticks, i + 1, epochSeconds);
          return chain, false;
        }
        chain := chain + [made.value];
      }
    }
    assert ticks[..|ticks|] == ticks;
    return chain, true;
  }

  lemma {:induction false} StoppedStays(h: Hashing, genesis: Block, ticks: seq<Tick>, k: nat, epochSeconds: u64)
    requires k <= |ticks| && !Produced(h, genesis, ticks[..k], epochSeconds).running
    ensures Produced(h, genesis, ticks, epochSeconds) == Produced(h, genesis, ticks[..k], epochSeconds)
    decreases |ticks| - k
  {
    if k == |ticks| {
      assert ticks[..k] == ticks;
    } else {
      assert ticks[..k + 1][..k] == ticks[..k];
      StoppedStays(h, genesis, ticks, k + 1, epochSeconds);
    }
  }
}
