/** Starting a node from its genesis and its stored blocks (src/state.rs:314-383). */
module Boot {
  import opened Wrappers
  import opened Ledger
  import opened Mempool
  import opened Runs
  import opened Solvency
  import ActivatedSupply
  import Anrc20
  import BridgeDedup
  import Consensus
  import Dex
  import LedgerLoops
  import NodeLoops
  import NodeState
  import NonceHistory
  import Replay
  import Text
  import Validators

  datatype GenesisRow = GenesisRow(address: Address, ants: u64, totalActivated: u64, sessions: u64)

  /** Everything a genesis row holds counts as activated. */
  function GenesisAccount(row: GenesisRow): Account {
    var total := if row.totalActivated < row.ants then row.ants else row.totalActivated;
    Account(row.ants, row.ants, total, row.sessions, map[])
  }

  function GenesisAccounts(rows: seq<GenesisRow>): Accounts {
    if rows == [] then map[]
    else GenesisAccounts(rows[..|rows| - 1])[rows[|rows| - 1].address := GenesisAccount(rows[|rows| - 1])]
  }

  /** A genesis starts the activation invariant. */
  lemma {:induction false} GenesisIsActivatedOk(rows: seq<GenesisRow>)
    ensures ActivatedSupply.ActivatedOk(GenesisAccounts(rows))
  {
    if rows != [] {
      GenesisIsActivatedOk(rows[..|rows| - 1]);
    }
  }

  /** And a genesis can end it: of two wallets of 2^63 ants and too few sessions, a sync that lists
      neither leaves the second with its activated remainder and no ants. */
  lemma LargeGenesisBreaksClawback(x: Address, y: Address, pools: map<string, Dex.Pool>, funded: set<Address>)
    requires x != y
    ensures
      var big := 0x8000_0000_0000_0000;
      var d := Dex.Dex(GenesisAccounts([GenesisRow(x, big, big, 0), GenesisRow(y, big, big, 0)]), pools, funded);
      var left := map[x := EMPTY, y := Account(0, big, big, 0, map[])];
      && ActivatedSupply.After(d, ActivatedSupply.SyncStep([], 0, left)) == Some(d.(accounts := left))
      && !ActivatedSupply.ActivatedOk(left)
  {
    var big := 0x8000_0000_0000_0000;
    var rows := [GenesisRow(x, big, big, 0), GenesisRow(y, big, big, 0)];
    assert rows[..1] == [rows[0]] && [rows[0]][..0] == [];
    assert GenesisAccounts([rows[0]]) == map[x := GenesisAccount(rows[0])];
    ActivatedSupply.TwoLargeWalletsBreakClawback(x, y, pools, funded);
  }

  method BuildAccounts(rows: seq<GenesisRow>) returns (accounts: Accounts)
    ensures accounts == GenesisAccounts(rows)
  {
    accounts := map[];
    for i := 0 to |rows|
      invariant accounts == GenesisAccounts(rows[..i])
    {
      assert rows[..i + 1][..i] == rows[..i];
      var row := rows[i];
      var total := if row.totalActivated > row.ants then row.totalActivated else row.ants;
      accounts := accounts[row.address := Account(row.ants, row.ants, total, row.sessions, map[])];
    }
    assert rows[..|rows|] == rows;
  }

  /** `from_genesis` after loading the chain; `pools` and `registry` come from its last block.
      Seats are first derived from the genesis accounts, before the replay. */
  method FromGenesis(rows: seq<GenesisRow>, blocks: seq<Block>, h: Consensus.Hashing, chainId: string,
                     pools: map<string, Dex.Pool>, registry: map<string, Anrc20.Token>)
    returns (r: Option<NodeState.NodeState>)
    ensures
      var g, txs := GenesisAccounts(rows), NonceHistory.ChainTxs(blocks);
      && (r.Some? <==>
            && Consensus.ValidSequence(h, blocks)
            && Replay.ReplayEntries(g, ChainEntries(blocks)).Success?
            && NonceHistory.Rebuild(map[], txs).Some?)
      && (r.Some? ==>
            && fresh(r.value) && r.value.hashOf == h.current
            && Some(BridgeDedup.Live(r.value.View(), r.value.processedHashes)) ==
               BridgeDedup.Reload(g, blocks, r.value.eligibleMiners, chainId)
            && forall order :: Validators.Enumerates(order, g) ==>
                                 r.value.eligibleMiners == Validators.Addresses(Validators.PlainSeats(g, order)))
  {
    var accounts := BuildAccounts(rows);
    var valid := Consensus.ValidateBlockSequence(h, blocks);
    if !valid {
      return None;
    }
    var miners := PlainValidators(accounts);
    var replayed := LedgerLoops.ReplayBlocks(accounts, blocks);
    if replayed.Failure? {
      return None;
    }
    var nonces := NonceHistory.RebuildAccountNonces(blocks);
    if nonces.None? {
      return None;
    }
    var funded := BridgeDedup.CollectBridgeFundedAccounts(blocks);
    var hashes := BridgeDedup.CollectProcessedBridgeHashes(blocks);
    var loaded := Node(replayed.value, [], nonces.value, blocks, miners, funded, chainId);
    var node := new NodeState.NodeState(chainId, h.current, loaded, pools, registry, hashes);
    r := Some(node);
  }

  /** `compute_validators_from_accounts`, in whatever order the map is enumerated. */
  method PlainValidators(accounts: Accounts) returns (miners: seq<Address>)
    ensures forall order :: Validators.Enumerates(order, accounts) ==>
                              miners == Validators.Addresses(Validators.PlainSeats(accounts, order))
  {
    var order := NodeLoops.Enumerate(accounts);
    miners := Validators.Addresses(Validators.PlainSeats(accounts, order));
    forall other | Validators.Enumerates(other, accounts)
      ensures miners == Validators.Addresses(Validators.PlainSeats(accounts, other))
    {
      Validators.EmptyListGivesPlainRule(accounts, other, order);
      Validators.EmptyListGivesPlainRule(accounts, other, other);
    }
  }

  lemma {:induction false} TreasuryIsNeverFunded(txs: seq<Tx>)
    requires AllQueuedTx(txs)
    ensures TREASURY !in BridgeDedup.CollectFunded(txs)
  {
    if txs != [] {
      var tx := txs[|txs| - 1];
      assert QueuedTx(tx);
      Text.WalletIsNormal(tx.to);
      TreasuryIsNeverFunded(txs[..|txs| - 1]);
    }
  }

  lemma {:induction false} TreasuryNonceStaysZero(txs: seq<Tx>)
    requires AllQueuedTx(txs) && NonceHistory.Rebuild(map[], txs).Some?
    ensures Nonce(NonceHistory.Rebuild(map[], txs).value, TREASURY) == 0
  {
    if txs != [] {
      assert QueuedTx(txs[|txs| - 1]);
      TreasuryNonceStaysZero(txs[..|txs| - 1]);
    }
  }

  lemma ReplayKeepsSessions(g: Accounts, es: seq<Entry>, a: Address)
    requires Replay.ReplayEntries(g, es).Success?
    ensures Get(Replay.ReplayEntries(g, es).value, a).sessions == Get(g, a).sessions
  {
    var topUps := Replay.SimRun(Replay.Sim(g, map[]), es).value.topUps;
    ApplyRecord(Replay.UpFront(g, topUps), es, a);
    assert Get(Replay.UpFront(g, topUps), a).sessions == Get(g, a).sessions;
  }

  lemma SealAddsAcceptedTxs(hashOf: Body -> string, n: Node, start: int, end: int)
    requires Sound(n) && Seal(hashOf, n, start, end).Success? && AllQueuedTx(NonceHistory.ChainTxs(n.blocks))
    ensures AllQueuedTx(NonceHistory.ChainTxs(Seal(hashOf, n, start, end).value.blocks))
  {
    var sorted := SortForBlock(n.mempool);
    BridgeDedup.SealedTxs(hashOf, n, start, end);
    forall i | 0 <= i < |sorted| ensures QueuedTx(sorted[i]) {
      SortedMember(n.mempool, i);
    }
  }

  /** Only a stored seal changes the chain. */
  lemma OtherStepsKeepBlocks(hashOf: Body -> string, n: Node, step: Step)
    requires !(step.SealBlock? && step.db.Stores? && Seal(hashOf, n, step.start, step.end).Success?)
    ensures Next(hashOf, n, step).blocks == n.blocks
  {
  }

  lemma StepSealsAcceptedTxs(hashOf: Body -> string, n: Node, step: Step)
    requires Sound(n) && AllQueuedTx(NonceHistory.ChainTxs(n.blocks))
    ensures AllQueuedTx(NonceHistory.ChainTxs(Next(hashOf, n, step).blocks))
  {
    if step.SealBlock? && step.db.Stores? && Seal(hashOf, n, step.start, step.end).Success? {
      SealAddsAcceptedTxs(hashOf, n, step.start, step.end);
    } else {
      OtherStepsKeepBlocks(hashOf, n, step);
    }
  }

  /** The blocks of a run hold accepted transactions only. */
  lemma {:induction false} RunSealsAcceptedTxs(hashOf: Body -> string, n: Node, steps: seq<Step>)
    requires Sound(n) && OrdinarySteps(steps) && AllQueuedTx(NonceHistory.ChainTxs(n.blocks))
    ensures AllQueuedTx(NonceHistory.ChainTxs(Run(hashOf, n, steps).blocks))
    decreases |steps|
  {
    if steps != [] {
      var before, step := steps[..|steps| - 1], steps[|steps| - 1];
      RunSealsAcceptedTxs(hashOf, n, before);
      RunIsSound(hashOf, n, before);
      StepSealsAcceptedTxs(hashOf, Run(hashOf, n, before), step);
    }
  }

  /** Main result: a node that restarts from blocks of accepted transactions is again in a
      sound state, so everything proved of runs holds across restarts. */
  lemma RestartIsSound(g: Accounts, blocks: seq<Block>, miners: seq<Address>, chainId: string)
    requires BridgeDedup.Reload(g, blocks, miners, chainId).Some?
    requires AllQueuedTx(NonceHistory.ChainTxs(blocks)) && Get(g, TREASURY).sessions < MIN_SESSIONS_FOR_ANET
    ensures Sound(BridgeDedup.Reload(g, blocks, miners, chainId).value.node)
  {
    var txs := NonceHistory.ChainTxs(blocks);
    TreasuryIsNeverFunded(txs);
    TreasuryNonceStaysZero(txs);
    ReplayKeepsSessions(g, ChainEntries(blocks), TREASURY);
  }
}
