/** What a restart does to the ANET and tokens in the DEX (src/state.rs:314-356, 2403-2415): the
    accounts come from a genesis file, which has no assets, and the blocks; the pools come from
    the last block. */
module PoolRestart {
  import opened Wrappers
  import opened Ledger
  import opened Mempool
  import opened OffBlock
  import opened Replay
  import opened Solvency
  import opened Sums
  import Anrc20
  import Boot
  import Dex
  import LiveReplay
  import Runs
  import WanetIssue

  // --- what blocks and replays do to the totals ---------------------------------

  /** Everything credited less everything debited. */
  function Net(es: seq<Entry>): int {
    if es == [] then 0 else Change(es[0]) + Net(es[1..])
  }

  lemma {:induction false} NetConcat(xs: seq<Entry>, ys: seq<Entry>)
    ensures Net(xs + ys) == Net(xs) + Net(ys)
  {
    if xs == [] {
      assert xs + ys == ys;
    } else {
      assert (xs + ys)[1..] == xs[1..] + ys;
      NetConcat(xs[1..], ys);
    }
  }

  lemma {:induction false} RunSupply(accounts: Accounts, es: seq<Entry>)
    requires Apply(accounts, es).Success?
    ensures Supply(Apply(accounts, es).value) == Supply(accounts) + Net(es)
    decreases es
  {
    if es != [] {
      var next := ApplyEntry(accounts, es[0]).value;
      SupplyUpdate(accounts, es[0].who, next[es[0].who]);
      RunSupply(next, es[1..]);
    }
  }

  lemma {:induction false} CreditsNet(es: seq<Entry>)
    requires OnlyCredits(es)
    ensures Net(es) == AllCredits(es)
  {
    if es != [] {
      CreditsNet(es[1..]);
    }
  }

  lemma {:induction false} TransfersNet(txs: seq<Tx>)
    ensures Net(TxEntries(txs)) == 0 - SeqSum(txs, Fee())
  {
    if txs != [] {
      TransfersNet(txs[1..]);
      NetConcat(TxPair(txs[0]), TxEntries(txs[1..]));
      assert TxPair(txs[0])[1..] == [Credit(txs[0].to, txs[0].amount)] && TxPair(txs[0])[1..][1..] == [];
      assert Net(TxPair(txs[0])) == 0 - txs[0].fee == 0 - Fee()(txs[0]);
    }
  }

  /** A built block hands out all it takes. */
  lemma BuiltBlockIsEven(hashOf: Body -> string, height: u64, start: int, end: int, previous: string, txs: seq<Tx>,
                         miners: seq<Address>)
    requires NewBlock(hashOf, height, start, end, previous, txs, miners).Success?
    ensures Net(BlockEntries(NewBlock(hashOf, height, start, end, previous, txs, miners).value)) == 0
  {
    var b := NewBlock(hashOf, height, start, end, previous, txs, miners).value;
    TransfersNet(txs);
    FeesAreHandedOut(b.body);
    CreditsNet(FeeEntries(b.body));
    NetConcat(TxEntries(txs), FeeEntries(b.body));
  }

  lemma {:induction false} RunAssets(accounts: Accounts, es: seq<Entry>, s: string)
    requires Apply(accounts, es).Success?
    ensures Sum(Dex.Held(Apply(accounts, es).value, s)) == Sum(Dex.Held(accounts, s))
    decreases es
  {
    if es != [] {
      var next := ApplyEntry(accounts, es[0]).value;
      Dex.AccountChange(Dex.Dex(accounts, map[], {}), es[0].who, next[es[0].who]);
      RunAssets(next, es[1..], s);
    }
  }

  /** What the reconciliation adds in all. */
  ghost function TopUps(disk: Accounts, es: seq<Entry>): Amounts {
    var r := SimRun(Sim(disk, map[]), es);
    if r.Success? then r.value.topUps else map[]
  }

  lemma LastTopUp(g: Accounts, c: Amounts, a: Address)
    requires Fits(g, c) && a in c
    ensures Fits(g, c - {a}) && Balance(UpFront(g, c - {a}), a) == Balance(g, a)
    ensures TopUp(Get(g, a), c[a]).ants == Balance(g, a) + c[a]
    ensures UpFront(g, c) == UpFront(g, c - {a})[a := TopUp(Get(g, a), c[a])]
  {
    assert Top(c - {a}, a) == 0;
    var u, v := UpFront(g, c), UpFront(g, c - {a})[a := TopUp(Get(g, a), c[a])];
    assert u.Keys == v.Keys;
    forall b | b in u ensures u[b] == v[b] {
      assert b != a ==> (b in c <==> b in c - {a});
    }
  }

  lemma {:induction false} UpFrontSupply(g: Accounts, c: Amounts)
    requires Fits(g, c)
    ensures Supply(UpFront(g, c)) == Supply(g) + Sum(c)
    decreases |c|
  {
    if c == map[] {
      assert UpFront(g, c) == g;
    } else {
      var a :| a in c;
      UpFrontSupply(g, c - {a});
      SumRemove(c, a);
      LastTopUp(g, c, a);
      SupplyUpdate(UpFront(g, c - {a}), a, TopUp(Get(g, a), c[a]));
    }
  }

  /** No account of a genesis file holds assets. */
  ghost predicate NoAssets(accounts: Accounts) {
    forall a :: a in accounts ==> accounts[a].assets == map[]
  }

  lemma {:induction false} GenesisHasNoAssets(rows: seq<Boot.GenesisRow>)
    ensures NoAssets(Boot.GenesisAccounts(rows))
  {
    if rows != [] {
      GenesisHasNoAssets(rows[..|rows| - 1]);
    }
  }

  lemma {:induction false} NothingHeld(accounts: Accounts, s: string)
    requires forall a :: a in accounts ==> Dex.Asset(accounts[a], s) == 0
    ensures Sum(Dex.Held(accounts, s)) == 0
    decreases |accounts|
  {
    var held := Dex.Held(accounts, s);
    if accounts != map[] {
      var a :| a in accounts;
      SumRemove(held, a);
      NothingHeld(accounts - {a}, s);
      assert Dex.Held(accounts - {a}, s) == held - {a};
    }
  }

  /** A replay has the ants of the file, the top-ups and the chain's net, and no assets. */
  lemma ReplayedTotals(disk: Accounts, es: seq<Entry>, s: string)
    requires ReplayEntries(disk, es).Success? && NoAssets(disk)
    ensures Supply(ReplayEntries(disk, es).value) == Supply(disk) + Sum(TopUps(disk, es)) + Net(es)
    ensures Sum(Dex.Held(ReplayEntries(disk, es).value, s)) == 0
  {
    var funded := UpFront(disk, TopUps(disk, es));
    UpFrontSupply(disk, TopUps(disk, es));
    RunSupply(funded, es);
    RunAssets(funded, es, s);
    forall a | a in funded ensures Dex.Asset(funded[a], s) == 0 {
      assert funded[a].assets == map[];
    }
    NothingHeld(funded, s);
  }

  // --- the run before the restart -------------------------------------------------

  /** The pools in the last block of a run: those of the moment it was sealed. */
  ghost function Saved(hashOf: Body -> string, w: World, evs: seq<Event>,
                       pools: map<string, Dex.Pool>): map<string, Dex.Pool>
    requires Play(hashOf, w, evs).Some?
    decreases evs
  {
    if evs == [] then pools
    else
      var next := Do(hashOf, w, evs[0]).value;
      Saved(hashOf, next, evs[1..], if next.node.blocks != w.node.blocks then w.pools else pools)
  }

  /** What one event does to the ANET total without appending a block. */
  ghost function AnetMoved(hashOf: Body -> string, w: World, ev: Event): int
    requires Do(hashOf, w, ev).Some?
  {
    var next := Do(hashOf, w, ev).value;
    if next.node.blocks == w.node.blocks then Dex.AnetTotal(DexOf(next)) - Dex.AnetTotal(DexOf(w)) else 0
  }

  ghost function AnetGain(hashOf: Body -> string, w: World, evs: seq<Event>): int
    requires Play(hashOf, w, evs).Some?
    decreases evs
  {
    if evs == [] then 0 else AnetMoved(hashOf, w, evs[0]) + AnetGain(hashOf, Do(hashOf, w, evs[0]).value, evs[1..])
  }

  /** A block that is appended is an even one. */
  lemma SealAppendsEven(hashOf: Body -> string, n: Node, start: int, end: int) returns (b: Block)
    requires Seal(hashOf, n, start, end).Success?
    ensures Net(BlockEntries(b)) == 0 && Apply(n.accounts, BlockEntries(b)).Success?
    ensures
      var m := Seal(hashOf, n, start, end).value;
      m.blocks == n.blocks + [b] && m.accounts == Apply(n.accounts, BlockEntries(b)).value && m.funded == n.funded
  {
    var txs := SortForBlock(n.mempool);
    b := NewBlock(hashOf, NextHeight(n.blocks), start, end, TipHash(n.blocks), txs, n.miners).value;
    BuiltBlockIsEven(hashOf, NextHeight(n.blocks), start, end, TipHash(n.blocks), txs, n.miners);
  }

  lemma NetAppend(blocks: seq<Block>, b: Block)
    ensures Net(ChainEntries(blocks + [b])) == Net(ChainEntries(blocks)) + Net(BlockEntries(b))
  {
    LiveReplay.ChainEntriesAppend(blocks, b);
    NetConcat(ChainEntries(blocks), BlockEntries(b));
  }

  lemma UnsealedKeepsBlocks(hashOf: Body -> string, n: Node, start: int, end: int, db: Db)
    requires !db.Stores? || Seal(hashOf, n, start, end).Failure?
    ensures SealAttempt(hashOf, n, start, end, db).blocks == n.blocks
  {
  }

  lemma SealKeepsTotal(hashOf: Body -> string, w: World, start: int, end: int, db: Db)
    requires Net(ChainEntries(w.node.blocks)) == 0
    ensures
      var m := SealAttempt(hashOf, w.node, start, end, db);
      && Net(ChainEntries(m.blocks)) == 0
      && (m.blocks != w.node.blocks ==> Dex.AnetTotal(DexOf(w.(node := m))) == Dex.AnetTotal(DexOf(w)))
  {
    var n := w.node;
    if db.Stores? && Seal(hashOf, n, start, end).Success? {
      var b := SealAppendsEven(hashOf, n, start, end);
      NetAppend(n.blocks, b);
      EvenRunKeepsTotal(DexOf(w), BlockEntries(b));
      var m := Seal(hashOf, n, start, end).value;
      assert DexOf(w.(node := m)) == DexOf(w).(accounts := m.accounts);
    } else {
      UnsealedKeepsBlocks(hashOf, n, start, end, db);
    }
  }

  lemma EvenRunKeepsTotal(d: Dex.Dex, es: seq<Entry>)
    requires Apply(d.accounts, es).Success? && Net(es) == 0
    ensures Dex.AnetTotal(d.(accounts := Apply(d.accounts, es).value)) == Dex.AnetTotal(d)
  {
    RunSupply(d.accounts, es);
    RunAssets(d.accounts, es, Dex.WANET);
  }

  lemma EventTotal(hashOf: Body -> string, w: World, ev: Event)
    requires Do(hashOf, w, ev).Some? && Net(ChainEntries(w.node.blocks)) == 0
    ensures
      var next := Do(hashOf, w, ev).value;
      && Net(ChainEntries(next.node.blocks)) == 0
      && Dex.AnetTotal(DexOf(next)) == Dex.AnetTotal(DexOf(w)) + AnetMoved(hashOf, w, ev)
  {
    if ev.Call? && ev.step.SealBlock? {
      SealKeepsTotal(hashOf, w, ev.step.start, ev.step.end, ev.step.db);
    } else if ev.Call? {
      OtherCallsKeepBlocks(hashOf, w.node, ev.step);
    } else {
      OthersKeepBlocks(hashOf, w, ev);
    }
  }

  lemma OtherCallsKeepBlocks(hashOf: Body -> string, n: Node, step: Runs.Step)
    requires !step.SealBlock?
    ensures Runs.Next(hashOf, n, step).blocks == n.blocks
  {
  }

  lemma {:induction false} RunTotal(hashOf: Body -> string, w: World, evs: seq<Event>)
    requires Play(hashOf, w, evs).Some? && Net(ChainEntries(w.node.blocks)) == 0
    ensures
      var end := Play(hashOf, w, evs).value;
      && Net(ChainEntries(end.node.blocks)) == 0
      && Dex.AnetTotal(DexOf(end)) == Dex.AnetTotal(DexOf(w)) + AnetGain(hashOf, w, evs)
    decreases evs
  {
    if evs != [] {
      EventTotal(hashOf, w, evs[0]);
      RunTotal(hashOf, Do(hashOf, w, evs[0]).value, evs[1..]);
    }
  }

  // --- the restart ----------------------------------------------------------------

  /** The DEX as a restart finds it. */
  ghost function Restarted(disk: Accounts, blocks: seq<Block>, pools: map<string, Dex.Pool>,
                           funded: set<Address>): Dex.Dex
    requires ReplayEntries(disk, ChainEntries(blocks)).Success?
  {
    Dex.Dex(ReplayEntries(disk, ChainEntries(blocks)).value, pools, funded)
  }

  /** The ANET in pools, wrapped or not. */
  ghost function Pooled(pools: map<string, Dex.Pool>): int {
    Sum(Dex.Reserves(pools)) + if Dex.WANET in pools then pools[Dex.WANET].token else 0
  }

  /** Main result: after a restart nobody holds units of any token; all that is left of one is in its
      pool. So its total survives if and only if accounts and pool held together what the pool of
      the last block did: when that pool has not changed since, if and only if nobody held any. */
  lemma RestartKeepsPooledTokensOnly(d: Dex.Dex, disk: Accounts, blocks: seq<Block>, saved: map<string, Dex.Pool>,
                                     s: string)
    requires ReplayEntries(disk, ChainEntries(blocks)).Success? && NoAssets(disk)
    ensures
      var after := Restarted(disk, blocks, saved, d.funded);
      && (forall a :: Dex.Asset(Get(after.accounts, a), s) == 0)
      && Dex.TokenTotal(after, s) == Dex.TokenReserve(after, s)
      && (saved == d.pools ==>
            (Dex.TokenTotal(after, s) == Dex.TokenTotal(d, s) <==> forall a :: Dex.Asset(Get(d.accounts, a), s) == 0))
  {
    var es := ChainEntries(blocks);
    ReplayedTotals(disk, es, s);
    HeldByNobody(ReplayEntries(disk, es).value, s);
    HeldByNobody(d.accounts, s);
  }

  /** The registry of the last block comes back as well, and the accounts do not: after a restart no
      token transfer succeeds, and the two ledgers agree on a token if and only if the registry
      lists nobody for it. */
  lemma RestartStrandsTokens(d: Dex.Dex, disk: Accounts, blocks: seq<Block>, saved: map<string, Dex.Pool>,
                             registry: map<string, Anrc20.Token>, s: string)
    requires ReplayEntries(disk, ChainEntries(blocks)).Success? && NoAssets(disk)
    ensures
      var m := Anrc20.Market(Restarted(disk, blocks, saved, d.funded), registry);
      && (forall from, to, amount :: Anrc20.Transfer(m, from, to, s, amount).Failure?)
      && (Anrc20.Mirrored(m, s) <==> forall a :: Anrc20.Listed(m, s, a) == 0)
  {
    var m := Anrc20.Market(Restarted(disk, blocks, saved, d.funded), registry);
    RestartKeepsPooledTokensOnly(d, disk, blocks, saved, s);
    forall from, to, amount ensures Anrc20.Transfer(m, from, to, s, amount).Failure? {
      assert Dex.Asset(Get(m.dex.accounts, from), s) == 0;
    }
  }

  lemma HeldByNobody(accounts: Accounts, s: string)
    ensures Sum(Dex.Held(accounts, s)) == 0 <==> forall a :: Dex.Asset(Get(accounts, a), s) == 0
  {
    forall a ensures Sum(Dex.Held(accounts, s)) >= Dex.Asset(Get(accounts, a), s) {
      SumAtLeast(Dex.Held(accounts, s), a);
    }
    if forall a :: Dex.Asset(Get(accounts, a), s) == 0 {
      forall a | a in accounts ensures Dex.Asset(accounts[a], s) == 0 {
        assert Get(accounts, a) == accounts[a];
      }
      NothingHeld(accounts, s);
    }
  }

  /** The ANET total after a restart from any genesis file, over any run. */
  lemma RestartedAnet(hashOf: Body -> string, w: World, evs: seq<Event>, disk: Accounts, saved: map<string, Dex.Pool>)
    requires Net(ChainEntries(w.node.blocks)) == 0 && Play(hashOf, w, evs).Some? && NoAssets(disk)
    requires ReplayEntries(disk, ChainEntries(Play(hashOf, w, evs).value.node.blocks)).Success?
    ensures
      var end := Play(hashOf, w, evs).value;
      var after := Restarted(disk, end.node.blocks, saved, end.node.funded);
      Dex.AnetTotal(after) - Dex.AnetTotal(DexOf(end)) ==
      Supply(disk) + Sum(TopUps(disk, ChainEntries(end.node.blocks))) + Pooled(saved)
      - Dex.AnetTotal(DexOf(w)) - AnetGain(hashOf, w, evs)
  {
    RunTotal(hashOf, w, evs);
    ReplayedTotals(disk, ChainEntries(Play(hashOf, w, evs).value.node.blocks), Dex.WANET);
  }

  /** Transfers, whole seals, and trades and token calls that return Ok. */
  ghost predicate FairEvent(hashOf: Body -> string, w: World, ev: Event) {
    match ev
    case Call(step) => (step.Transfer? || step.SealBlock?) && LiveReplay.WholeStep(hashOf, w.node, step)
    case Outside(ch) => ch.DexStep? && Dex.Do(DexOf(w), ch.op).Success?
    case Token(call) => Anrc20.TokenStep(call) && Anrc20.Do(MarketOf(w), call).Some?
    case Reseat(_) => true
  }

  ghost predicate FairRun(hashOf: Body -> string, w: World, evs: seq<Event>)
    decreases evs
  {
    evs == [] ||
    (&& FairEvent(hashOf, w, evs[0]) && Do(hashOf, w, evs[0]).Some?
     && FairRun(hashOf, Do(hashOf, w, evs[0]).value, evs[1..]))
  }

  lemma FairCallGainsNothing(hashOf: Body -> string, w: World, ev: Event)
    requires ev.Call? && FairEvent(hashOf, w, ev)
    ensures AnetMoved(hashOf, w, ev) == 0 && Do(hashOf, w, ev).value.pools == w.pools
  {
    var next := Do(hashOf, w, ev).value.node;
    if next.blocks == w.node.blocks {
      FairCallKeepsAccounts(hashOf, w.node, ev.step);
    }
  }

  lemma FairCallKeepsAccounts(hashOf: Body -> string, n: Node, step: Runs.Step)
    requires (step.Transfer? || step.SealBlock?) && LiveReplay.WholeStep(hashOf, n, step)
    requires Runs.Next(hashOf, n, step).blocks == n.blocks
    ensures Runs.Next(hashOf, n, step).accounts == n.accounts
  {
  }

  /** A trade that returns Ok leaves its result, and no block. */
  lemma OkTrade(hashOf: Body -> string, w: World, ev: Event)
    requires ev.Outside? && FairEvent(hashOf, w, ev)
    ensures Do(hashOf, w, ev).Some?
    ensures DexOf(Do(hashOf, w, ev).value) == Dex.Do(DexOf(w), ev.ch.op).value
    ensures Do(hashOf, w, ev).value.node.blocks == w.node.blocks
  {
  }

  lemma SameAnet(d: Dex.Dex, op: Dex.Op)
    requires Dex.DexOk(d) && Dex.Do(d, op).Success?
    ensures Dex.DexOk(Dex.Do(d, op).value) && Dex.AnetTotal(Dex.Do(d, op).value) == Dex.AnetTotal(d)
  {
    Dex.OpKeeps(d, op);
  }

  lemma FairTradeGainsNothing(hashOf: Body -> string, w: World, ev: Event)
    requires ev.Outside? && FairEvent(hashOf, w, ev) && Dex.DexOk(DexOf(w))
    ensures Do(hashOf, w, ev).Some? && AnetMoved(hashOf, w, ev) == 0 && Dex.DexOk(DexOf(Do(hashOf, w, ev).value))
  {
    OkTrade(hashOf, w, ev);
    SameAnet(DexOf(w), ev.ch.op);
  }

  function IssuedAt(ev: Event): nat {
    if ev.Token? then WanetIssue.IssuedBy(ev.call) else 0
  }

  /** The WANET units that the token calls of such a run issue. */
  function WanetIssued(evs: seq<Event>): nat {
    if evs == [] then 0
    else IssuedAt(evs[0]) + WanetIssued(evs[1..])
  }

  lemma FairTokenCallIssues(hashOf: Body -> string, w: World, ev: Event)
    requires ev.Token? && FairEvent(hashOf, w, ev)
    ensures Do(hashOf, w, ev).Some? && AnetMoved(hashOf, w, ev) == WanetIssue.IssuedBy(ev.call)
    ensures DexOf(Do(hashOf, w, ev).value).pools == w.pools
  {
    var m := MarketOf(w);
    Anrc20.StepKeptOnOk(m, ev.call);
    WanetIssue.TokenStepIssues(m, ev.call);
    WanetIssue.TokenStepKeepsAnts(m, ev.call);
    Anrc20.StepKeptMovesNoAnts(m, ev.call, TREASURY);
  }

  lemma FairEventIssues(hashOf: Body -> string, w: World, ev: Event)
    requires FairEvent(hashOf, w, ev) && Dex.DexOk(DexOf(w))
    ensures Do(hashOf, w, ev).Some? && AnetMoved(hashOf, w, ev) == IssuedAt(ev)
    ensures Dex.DexOk(DexOf(Do(hashOf, w, ev).value))
  {
    match ev
    case Call(_) => FairCallGainsNothing(hashOf, w, ev);
    case Outside(_) => FairTradeGainsNothing(hashOf, w, ev);
    case Token(_) => FairTokenCallIssues(hashOf, w, ev);
    case Reseat(_) =>
  }

  lemma {:induction false} FairRunGainsIssued(hashOf: Body -> string, w: World, evs: seq<Event>,
                                              saved: map<string, Dex.Pool>)
    requires FairRun(hashOf, w, evs) && Dex.DexOk(DexOf(w)) && Dex.DexOk(DexOf(w).(pools := saved))
    ensures Play(hashOf, w, evs).Some? && AnetGain(hashOf, w, evs) == WanetIssued(evs)
    ensures Dex.DexOk(DexOf(w).(pools := Saved(hashOf, w, evs, saved)))
    decreases evs
  {
    if evs != [] {
      var next := Do(hashOf, w, evs[0]).value;
      FairEventIssues(hashOf, w, evs[0]);
      FairRunGainsIssued(hashOf, next, evs[1..], if next.node.blocks != w.node.blocks then w.pools else saved);
    }
  }

  lemma NothingAdded(disk: Accounts, es: seq<Entry>)
    ensures Sum(TopUps(disk, es)) >= 0
    ensures Sum(TopUps(disk, es)) == 0 <==> TopUps(disk, es) == map[]
  {
    var t := TopUps(disk, es);
    if SimRun(Sim(disk, map[]), es).Success? {
      TopUpsHaveAccounts(Sim(disk, map[]), es);
    }
    if t != map[] {
      var a :| a in t;
      SumAtLeast(t, a);
    }
  }

  lemma NothingPooled(d: Dex.Dex)
    requires Dex.DexOk(d)
    ensures Pooled(d.pools) >= 0
    ensures Pooled(d.pools) == 0 <==> d.pools == map[]
  {
    if d.pools != map[] {
      var s :| s in d.pools;
      SumAtLeast(Dex.Reserves(d.pools), s);
      assert Dex.PoolOk(d.pools[s]);
    } else {
      assert Dex.Reserves(d.pools) == map[];
    }
  }

  lemma StartTotal(w: World)
    requires w.pools == map[] && forall a :: Dex.Asset(Get(w.node.accounts, a), Dex.WANET) == 0
    ensures Dex.AnetTotal(DexOf(w)) == Supply(w.node.accounts)
  {
    assert Dex.Reserves(map[]) == map[];
    HeldByNobody(w.node.accounts, Dex.WANET);
  }

  /** Main result: take any run of transfers, whole seals, and trades and token calls that return Ok,
      from a start without pools and wrapped ANET, tokens held or not; and any genesis file with
      as many ants. A restart makes ANET out of nothing: all that the pools of the last block
      hold, because providers and traders have theirs back as well, and all that the reconciliation
      adds; and it takes back the WANET units that token calls issued. The total survives if and
      only if these are equal: when no call issued any, if and only if the last block has no pool
      and no address needed a top-up. */
  lemma RestartDoublesPooledAnet(hashOf: Body -> string, w: World, evs: seq<Event>, disk: Accounts)
    requires FairRun(hashOf, w, evs) && ChainEntries(w.node.blocks) == []
    requires w.pools == map[] && forall a :: Dex.Asset(Get(w.node.accounts, a), Dex.WANET) == 0
    requires NoAssets(disk) && Supply(disk) == Supply(w.node.accounts)
    requires Play(hashOf, w, evs).Some? ==> Bounded(disk, ChainEntries(Play(hashOf, w, evs).value.node.blocks))
    ensures Play(hashOf, w, evs).Some?
    ensures
      var end, saved, issued := Play(hashOf, w, evs).value, Saved(hashOf, w, evs, map[]), WanetIssued(evs);
      var es := ChainEntries(end.node.blocks);
      && ReplayEntries(disk, es).Success?
      && var live, after := Dex.AnetTotal(DexOf(end)),
          Dex.AnetTotal(Restarted(disk, end.node.blocks, saved, end.node.funded));
      && after == live + Pooled(saved) + Sum(TopUps(disk, es)) - issued
      && (after == live <==> Pooled(saved) + Sum(TopUps(disk, es)) == issued)
      && (issued == 0 ==> after >= live && (after == live <==> saved == map[] && TopUps(disk, es) == map[]))
  {
    FairRunGainsIssued(hashOf, w, evs, map[]);
    var end, saved := Play(hashOf, w, evs).value, Saved(hashOf, w, evs, map[]);
    var es := ChainEntries(end.node.blocks);
    RunRecords(hashOf, w, evs, TREASURY);
    ReplayAgreesWithSimulation(disk, es);
    RestartedAnet(hashOf, w, evs, disk, saved);
    StartTotal(w);
    NothingAdded(disk, es);
    NothingPooled(DexOf(w).(pools := saved));
  }
}
