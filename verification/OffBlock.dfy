/** Runs in which accounts also change outside blocks: syncs, trades, migrations and burns write
    accounts that no block records, so a restart, which replays the blocks alone, forgets them
    (src/state.rs:342-371 against 1126-1181, 1396-1832). */
module OffBlock {
  import opened Wrappers
  import opened Ledger
  import opened Mempool
  import opened Replay
  import ActivatedSupply
  import Anrc20
  import Dex
  import LiveReplay
  import Runs
  import Solvency

  datatype World = World(node: Node, pools: map<string, Dex.Pool>, registry: map<string, Anrc20.Token>)

  /** One call into the node, one change outside blocks, one call about a token, or a new list of
      seats. */
  datatype Event =
    | Call(step: Runs.Step)
    | Outside(ch: ActivatedSupply.Change)
    | Token(call: Anrc20.Step)
    | Reseat(miners: seq<Address>)

  function DexOf(w: World): Dex.Dex {
    Dex.Dex(w.node.accounts, w.pools, w.node.funded)
  }

  function MarketOf(w: World): Anrc20.Market {
    Anrc20.Market(DexOf(w), w.registry)
  }

  /** The world after one event, whatever it returns. */
  ghost function Do(hashOf: Body -> string, w: World, ev: Event): Option<World> {
    match ev
    case Call(step) => Some(w.(node := Runs.Next(hashOf, w.node, step)))
    case Outside(ch) =>
      var r := ActivatedSupply.After(DexOf(w), ch);
      if r.None? then None
      else
        Some(w.(node := w.node.(accounts := r.value.accounts, funded := r.value.funded), pools := r.value.pools))
    case Token(call) =>
      if !Anrc20.TokenStep(call) then None
      else
        var kept := Anrc20.StepKept(MarketOf(w), call);
        Some(w.(node := w.node.(accounts := kept.dex.accounts), registry := kept.registry))
    case Reseat(miners) => Some(w.(node := w.node.(miners := miners)))
  }

  ghost function Play(hashOf: Body -> string, w: World, evs: seq<Event>): Option<World>
    decreases evs
  {
    if evs == [] then Some(w)
    else if Do(hashOf, w, evs[0]).None? then None
    else Play(hashOf, Do(hashOf, w, evs[0]).value, evs[1..])
  }

  /** What one event does to a balance without appending a block. */
  ghost function Moved(hashOf: Body -> string, w: World, ev: Event, a: Address): int
    requires Do(hashOf, w, ev).Some?
  {
    var next := Do(hashOf, w, ev).value.node;
    if next.blocks == w.node.blocks then Balance(next.accounts, a) - Balance(w.node.accounts, a) else 0
  }

  /** What all events of a run did to a balance without appending a block. */
  ghost function Gain(hashOf: Body -> string, w: World, evs: seq<Event>, a: Address): int
    requires Play(hashOf, w, evs).Some?
    decreases evs
  {
    if evs == [] then 0
    else Moved(hashOf, w, evs[0], a) + Gain(hashOf, Do(hashOf, w, evs[0]).value, evs[1..], a)
  }

  /** The part of a balance that the stored blocks do not account for. */
  function Unrecorded(n: Node, a: Address): int {
    Balance(n.accounts, a) - Credits(ChainEntries(n.blocks), a) + Debits(ChainEntries(n.blocks), a)
  }

  predicate Paying(n: Node) {
    PositiveDebits(ChainEntries(n.blocks))
  }

  lemma {:induction false} ValidTransfersPay(txs: seq<Tx>)
    requires forall i :: 0 <= i < |txs| ==> Valid(txs[i])
    ensures PositiveDebits(TxEntries(txs))
  {
    if txs != [] {
      assert Valid(txs[0]);
      ValidTransfersPay(txs[1..]);
      LiveReplay.PositiveConcat(TxPair(txs[0]), TxEntries(txs[1..]));
    }
  }

  /** `Block::new` lets only valid transactions through, so every debit of a block is positive. */
  lemma BuiltBlockPays(hashOf: Body -> string, height: u64, start: int, end: int, previous: string, txs: seq<Tx>,
                       miners: seq<Address>)
    requires NewBlock(hashOf, height, start, end, previous, txs, miners).Success?
    ensures PositiveDebits(BlockEntries(NewBlock(hashOf, height, start, end, previous, txs, miners).value))
  {
    var b := NewBlock(hashOf, height, start, end, previous, txs, miners).value;
    ValidTransfersPay(txs);
    Solvency.FeesAreHandedOut(b.body);
    LiveReplay.PositiveConcat(TxEntries(txs), FeeEntries(b.body));
  }

  lemma SealRecords(hashOf: Body -> string, n: Node, start: int, end: int, db: Db, a: Address)
    requires Paying(n)
    ensures
      var m := SealAttempt(hashOf, n, start, end, db);
      && Paying(m)
      && (m.blocks != n.blocks ==> Unrecorded(m, a) == Unrecorded(n, a))
  {
    var m := SealAttempt(hashOf, n, start, end, db);
    if db.Stores? && Seal(hashOf, n, start, end).Success? {
      var txs := SortForBlock(n.mempool);
      var b := NewBlock(hashOf, NextHeight(n.blocks), start, end, TipHash(n.blocks), txs, n.miners).value;
      BuiltBlockPays(hashOf, NextHeight(n.blocks), start, end, TipHash(n.blocks), txs, n.miners);
      LiveReplay.ChainEntriesAppend(n.blocks, b);
      LiveReplay.PositiveConcat(ChainEntries(n.blocks), BlockEntries(b));
      SumsConcat(ChainEntries(n.blocks), BlockEntries(b), a);
      ApplyBalance(n.accounts, BlockEntries(b), a);
    }
  }

  lemma CallRecords(hashOf: Body -> string, n: Node, step: Runs.Step, a: Address)
    requires Paying(n)
    ensures
      var m := Runs.Next(hashOf, n, step);
      && Paying(m)
      && (m.blocks != n.blocks ==> Unrecorded(m, a) == Unrecorded(n, a))
  {
    match step
    case Transfer(_) =>
    case BridgeCredit(_, _, _, _, _) =>
    case Activate(_) =>
    case SealBlock(start, end, db) => SealRecords(hashOf, n, start, end, db, a);
  }

  lemma OthersKeepBlocks(hashOf: Body -> string, w: World, ev: Event)
    requires Do(hashOf, w, ev).Some? && !ev.Call?
    ensures Do(hashOf, w, ev).value.node.blocks == w.node.blocks
  {
  }

  lemma EventRecords(hashOf: Body -> string, w: World, ev: Event, a: Address)
    requires Do(hashOf, w, ev).Some? && Paying(w.node)
    ensures
      var next := Do(hashOf, w, ev).value;
      Paying(next.node) && Unrecorded(next.node, a) == Unrecorded(w.node, a) + Moved(hashOf, w, ev, a)
  {
    if ev.Call? {
      CallRecords(hashOf, w.node, ev.step, a);
    } else {
      OthersKeepBlocks(hashOf, w, ev);
    }
  }

  lemma {:induction false} RunRecords(hashOf: Body -> string, w: World, evs: seq<Event>, a: Address)
    requires Play(hashOf, w, evs).Some? && Paying(w.node)
    ensures
      var end := Play(hashOf, w, evs).value;
      Paying(end.node) && Unrecorded(end.node, a) == Unrecorded(w.node, a) + Gain(hashOf, w, evs, a)
    decreases evs
  {
    if evs != [] {
      EventRecords(hashOf, w, evs[0], a);
      RunRecords(hashOf, Do(hashOf, w, evs[0]).value, evs[1..], a);
    }
  }

  /** Main result: take any run of calls, seals, syncs, trades, migrations, burns and token calls, and any accounts
      `disk` that a restart then starts from: the original genesis, or the snapshot a sync of
      the run wrote over it. The restart gives an address the balance on disk, plus what its
      blocks record, plus the deepest shortfall of that record; the live balance is the first
      genesis, plus the same record, plus what was gained outside blocks. So it survives if and
      only if disk and shortfall make up for genesis and gain. */
  lemma RestartForgetsOffBlock(hashOf: Body -> string, w: World, evs: seq<Event>, disk: Accounts, a: Address)
    requires ChainEntries(w.node.blocks) == [] && Play(hashOf, w, evs).Some?
    requires Bounded(disk, ChainEntries(Play(hashOf, w, evs).value.node.blocks))
    ensures
      var g, end := w.node.accounts, Play(hashOf, w, evs).value.node;
      var es, gained := ChainEntries(end.blocks), Gain(hashOf, w, evs, a);
      var replayed, missing := ReplayEntries(disk, es), Shortfall(Balance(disk, a), es, a);
      && replayed.Success?
      && Balance(replayed.value, a) - Balance(end.accounts, a) == Balance(disk, a) + missing - Balance(g, a) - gained
      && (disk == g ==> (Balance(replayed.value, a) == Balance(end.accounts, a) <==> gained == missing))
  {
    RunRecords(hashOf, w, evs, a);
    ReplayedBalance(disk, ChainEntries(Play(hashOf, w, evs).value.node.blocks), a);
  }

  /** Main result: when the recorded history applies to the genesis as it is, a restart undoes exactly
      what happened outside blocks; an address keeps its balance if and only if that is nothing. */
  lemma SolventRestartUndoesOffBlock(hashOf: Body -> string, w: World, evs: seq<Event>, a: Address)
    requires ChainEntries(w.node.blocks) == [] && Play(hashOf, w, evs).Some?
    requires Apply(w.node.accounts, ChainEntries(Play(hashOf, w, evs).value.node.blocks)).Success?
    ensures
      var g, end := w.node.accounts, Play(hashOf, w, evs).value.node;
      var replayed := ReplayEntries(g, ChainEntries(end.blocks));
      && replayed.Success?
      && Balance(end.accounts, a) - Balance(replayed.value, a) == Gain(hashOf, w, evs, a)
      && (Balance(replayed.value, a) == Balance(end.accounts, a) <==> Gain(hashOf, w, evs, a) == 0)
  {
    var es := ChainEntries(Play(hashOf, w, evs).value.node.blocks);
    RunRecords(hashOf, w, evs, a);
    SolventHistoryUntouched(w.node.accounts, es);
    ApplyBalance(w.node.accounts, es, a);
  }

  // --- what the difference is made of ------------------------------------------

  predicate OffChain(ev: Event) {
    ev.Outside? || (ev.Call? && ev.step.Activate?)
  }

  /** What an accepted bridge credit puts into the treasury. */
  function FundedBy(w: World, ev: Event): nat {
    if ev.Call? && ev.step.BridgeCredit? &&
       QueueBridgeCredit(w.node, ev.step.recipient, ev.step.amount, ev.step.memoHash, ev.step.now, ev.step.id).Success?
    then ev.step.amount + MIN_FEE_ANTS
    else 0
  }

  /** What the syncs, trades, migrations and burns of a run, and nothing else, did to a balance. */
  ghost function OffChainGain(hashOf: Body -> string, w: World, evs: seq<Event>, a: Address): int
    requires Play(hashOf, w, evs).Some?
    decreases evs
  {
    if evs == [] then 0
    else
      (if OffChain(evs[0]) then Moved(hashOf, w, evs[0], a) else 0)
      + OffChainGain(hashOf, Do(hashOf, w, evs[0]).value, evs[1..], a)
  }

  /** What the bridge credits of a run put into the treasury. */
  ghost function Funded(hashOf: Body -> string, w: World, evs: seq<Event>): nat
    requires Play(hashOf, w, evs).Some?
    decreases evs
  {
    if evs == [] then 0 else FundedBy(w, evs[0]) + Funded(hashOf, Do(hashOf, w, evs[0]).value, evs[1..])
  }

  /** Every block that is built also applies and is stored. */
  ghost predicate WholeSeals(hashOf: Body -> string, w: World, evs: seq<Event>)
    requires Play(hashOf, w, evs).Some?
    decreases evs
  {
    evs == [] ||
    (&& (evs[0].Call? ==> LiveReplay.WholeStep(hashOf, w.node, evs[0].step))
     && WholeSeals(hashOf, Do(hashOf, w, evs[0]).value, evs[1..]))
  }

  lemma CallMovesOnlyTreasury(hashOf: Body -> string, w: World, ev: Event, a: Address)
    requires Do(hashOf, w, ev).Some? && !OffChain(ev)
    requires ev.Call? ==> LiveReplay.WholeStep(hashOf, w.node, ev.step)
    ensures Moved(hashOf, w, ev, a) == if a == TREASURY then FundedBy(w, ev) else 0
  {
    if ev.Token? {
      Anrc20.StepKeptMovesNoAnts(MarketOf(w), ev.call, a);
    }
  }

  lemma OutsideFundsNothing(w: World, ev: Event)
    requires OffChain(ev)
    ensures FundedBy(w, ev) == 0
  {
  }

  /** Main result: queueing, sealing and token calls never contribute to the difference. For every address but the
      treasury it is exactly what syncs, trades, migrations and burns did; the treasury also
      has the funding of its bridge credits. */
  lemma {:induction false} OnlyOffChainStepsGain(hashOf: Body -> string, w: World, evs: seq<Event>, a: Address)
    requires Play(hashOf, w, evs).Some? && WholeSeals(hashOf, w, evs)
    ensures Gain(hashOf, w, evs, a) ==
            OffChainGain(hashOf, w, evs, a) + if a == TREASURY then Funded(hashOf, w, evs) else 0
    decreases evs
  {
    if evs != [] {
      if OffChain(evs[0]) {
        OutsideFundsNothing(w, evs[0]);
      } else {
        CallMovesOnlyTreasury(hashOf, w, evs[0], a);
      }
      OnlyOffChainStepsGain(hashOf, Do(hashOf, w, evs[0]).value, evs[1..], a);
    }
  }

  lemma {:induction false} PlayConcat(hashOf: Body -> string, w: World, evs: seq<Event>, ev: Event)
    requires Play(hashOf, w, evs).Some? && Do(hashOf, Play(hashOf, w, evs).value, ev).Some?
    ensures Play(hashOf, w, evs + [ev]) == Do(hashOf, Play(hashOf, w, evs).value, ev)
    decreases evs
  {
    if evs == [] {
      assert [] + [ev] == [ev] && [ev][1..] == [];
    } else {
      assert (evs + [ev])[1..] == evs[1..] + [ev];
      PlayConcat(hashOf, Do(hashOf, w, evs[0]).value, evs[1..], ev);
    }
  }

  lemma SharesMissOthers(accounts: Accounts, validators: seq<Address>, a: Address)
    requires a !in validators && a != FEE_RESERVE
    ensures Balance(ActivatedSupply.ShareKept(accounts, validators), a) == Balance(accounts, a)
  {
    if validators == [] {
      CreditsMissOthers(accounts, [Credit(FEE_RESERVE, MIN_FEE_ANTS)], a);
    } else {
      var per, rest := MIN_FEE_ANTS / |validators|, MIN_FEE_ANTS % |validators|;
      var shares := if per > 0 then MinerEntries(validators, per) else [];
      LiveReplay.NoMinerCredit(validators, per, a);
      Solvency.MinerCredits(validators, per);
      CreditsMissOthers(accounts, shares, a);
      KeptConcat(accounts, shares, []);
      CreditsMissOthers(Kept(accounts, shares), [Credit(FEE_RESERVE, rest)], a);
    }
  }

  lemma {:induction false} CreditsMissOthers(accounts: Accounts, es: seq<Entry>, a: Address)
    requires Solvency.OnlyCredits(es) && (Credits(es, a) == 0 || forall i :: 0 <= i < |es| ==> es[i].who != a)
    ensures Balance(Kept(accounts, es), a) == Balance(accounts, a)
    decreases es
  {
    if es != [] && ApplyEntry(accounts, es[0]).Success? {
      CreditsMissOthers(ApplyEntry(accounts, es[0]).value, es[1..], a);
    }
  }

  /** Main result: a burn is promised to be permanent (src/state.rs:1123-1126), but whatever ran
      before, a restart after it is a restart before it: the wallet has the burned amount and the
      fee back. */
  lemma RestartUndoesBurn(hashOf: Body -> string, w: World, evs: seq<Event>, disk: Accounts, a: Address, amount: u64,
                          validators: seq<Address>)
    requires Play(hashOf, w, evs).Some? && a !in validators && a != FEE_RESERVE
    requires ActivatedSupply.Burn(Play(hashOf, w, evs).value.node.accounts, a, amount, validators).Success?
    ensures
      var burn := Outside(ActivatedSupply.BurnStep(a, amount, validators));
      && Play(hashOf, w, evs + [burn]).Some?
      && var before, after := Play(hashOf, w, evs).value.node, Play(hashOf, w, evs + [burn]).value.node;
      && Balance(after.accounts, a) == Balance(before.accounts, a) - amount - MIN_FEE_ANTS
      && Solvency.Supply(after.accounts) <= Solvency.Supply(before.accounts) - amount
      && ReplayEntries(disk, ChainEntries(after.blocks)) == ReplayEntries(disk, ChainEntries(before.blocks))
  {
    var before := Play(hashOf, w, evs).value.node;
    PlayConcat(hashOf, w, evs, Outside(ActivatedSupply.BurnStep(a, amount, validators)));
    SharesMissOthers(before.accounts[a := Spend(before.accounts[a], amount + MIN_FEE_ANTS)], validators, a);
    ActivatedSupply.BurnOkIsKept(before.accounts, a, amount, validators);
    ActivatedSupply.BurnDestroysExactlyAmount(before.accounts, a, amount, validators);
  }
}
