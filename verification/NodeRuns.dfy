/** Every call of the mutable node is an event of the runs of `OffBlock`, and a series of calls is such a run;
    so what is proved of runs holds of the node in place (src/state.rs:633-734, 824-1312, 1396-2132, 2210-2289). */
module NodeRuns {
  import opened Wrappers
  import opened Ledger
  import opened Mempool
  import ActivatedSupply
  import Activation
  import Anrc20
  import Dex
  import NodeState
  import OffBlock
  import Runs
  import Text

  /** A call with its arguments, and what the database or the disk does in it. */
  datatype Call =
    | QueueTransaction(tx: Tx)
    | QueueBridgeCredit(recipient: string, amount: u64, evmTxHash: string, now: int, id: string)
    | CreateBlock(start: int, end: int, db: Db)
    | SyncActivatedAccounts(rows: seq<Activation.Snapshot>, written: bool)
    | MigrateLegacyToSecp(legacy: Address, secp: Address)
    | BridgeBurnAnet(wallet: Address, amount: u64)
    | DexCreatePool(provider: Address, symbol: string, anet: u64, token: u64, fee: Option<nat>)
    | DexAddLiquidity(provider: Address, symbol: string, anet: u64, token: u64)
    | DexSwap(trader: Address, symbol: string, amount: u64, anetToToken: bool, minOut: u64, deadline: Option<u64>)
    | DexWrapAnet(wallet: Address, amount: u64)
    | DexUnwrapWanet(wallet: Address, amount: u64)
    | CreateToken(owner: Address, symbol: string, name: string, decimals: nat, supply: u64, mintable: bool)
    | MintToken(caller: Address, to: Address, symbol: string, amount: u64)
    | TransferToken(from: Address, to: Address, symbol: string, amount: u64)

  function World(node: NodeState.NodeState): OffBlock.World
    reads node
  {
    OffBlock.World(node.View(), node.dexPools, node.tokenRegistry)
  }

  /** The event of a call that `w` takes to `v`. A sync is one, followed by new seats when it succeeds. */
  function EventOf(call: Call, w: OffBlock.World, pending: u64, v: OffBlock.World): OffBlock.Event {
    match call
    case QueueTransaction(tx) => OffBlock.Call(Runs.Transfer(tx))
    case QueueBridgeCredit(to, amount, hash, now, id) =>
      var recipient, memoHash := Text.AsciiUpper(Text.Trim(to)), Text.AsciiLower(Text.Trim(hash));
      OffBlock.Call(Runs.BridgeCredit(recipient, amount, memoHash, now, id))
    case CreateBlock(start, end, db) => OffBlock.Call(Runs.SealBlock(start, end, db))
    case SyncActivatedAccounts(rows, _) => OffBlock.Outside(ActivatedSupply.SyncStep(rows, pending, v.node.accounts))
    case MigrateLegacyToSecp(l, s) => OffBlock.Outside(ActivatedSupply.MigrateStep(l, s, v.node.accounts))
    case BridgeBurnAnet(a, amount) => OffBlock.Outside(ActivatedSupply.BurnStep(a, amount, w.node.miners))
    case DexCreatePool(a, s, x, t, fee) =>
      OffBlock.Outside(ActivatedSupply.DexStep(Dex.Create(a, s, x, t, fee), v.pools))
    case DexAddLiquidity(a, s, x, t) => OffBlock.Outside(ActivatedSupply.DexStep(Dex.Add(a, s, x, t), v.pools))
    case DexSwap(a, s, x, dir, minOut, deadline) =>
      OffBlock.Outside(ActivatedSupply.DexStep(
        Dex.SwapIn(a, s, x, dir, minOut, NodeState.LastHeight(w.node.blocks), deadline), v.pools))
    case DexWrapAnet(a, x) => OffBlock.Outside(ActivatedSupply.DexStep(Dex.WrapAnet(a, x), v.pools))
    case DexUnwrapWanet(a, x) => OffBlock.Outside(ActivatedSupply.DexStep(Dex.UnwrapWanet(a, x), v.pools))
    case CreateToken(o, s, name, d, supply, mintable) =>
      OffBlock.Token(Anrc20.CreateStep(o, s, name, d, supply, mintable))
    case MintToken(c, to, s, x) => OffBlock.Token(Anrc20.MintStep(c, to, s, x))
    case TransferToken(f, to, s, x) => OffBlock.Token(Anrc20.TransferStep(f, to, s, x))
  }

  /** The calls on the queue and the chain. */
  method QueueOrSeal(node: NodeState.NodeState, call: Call)
    requires call.QueueTransaction? || call.QueueBridgeCredit? || call.CreateBlock?
    modifies node
    ensures OffBlock.Do(node.hashOf, old(World(node)), EventOf(call, old(World(node)), old(node.pendingActivated),
              World(node))) == Some(World(node))
  {
    match call
    case QueueTransaction(tx) => var _ := node.QueueTransaction(tx);
    case QueueBridgeCredit(to, amount, hash, now, id) => var _ := node.QueueBridgeCredit(to, amount, hash, now, id);
    case CreateBlock(start, end, db) => var _ := node.CreateBlock(start, end, db);
  }

  method ChangePool(node: NodeState.NodeState, call: Call)
    requires call.DexCreatePool? || call.DexAddLiquidity?
    modifies node
    ensures OffBlock.Do(node.hashOf, old(World(node)), EventOf(call, old(World(node)), old(node.pendingActivated),
              World(node))) == Some(World(node))
  {
    match call
    case DexCreatePool(a, s, x, t, fee) => var _ := node.DexCreatePool(a, s, x, t, fee);
    case DexAddLiquidity(a, s, x, t) => var _ := node.DexAddLiquidity(a, s, x, t);
  }

  method Trade(node: NodeState.NodeState, call: Call)
    requires call.DexSwap?
    modifies node
    ensures OffBlock.Do(node.hashOf, old(World(node)), EventOf(call, old(World(node)), old(node.pendingActivated),
              World(node))) == Some(World(node))
  {
    var _ := node.DexSwap(call.trader, call.symbol, call.amount, call.anetToToken, call.minOut, call.deadline);
  }

  method Wrap(node: NodeState.NodeState, call: Call)
    requires call.DexWrapAnet? || call.DexUnwrapWanet?
    modifies node
    ensures OffBlock.Do(node.hashOf, old(World(node)), EventOf(call, old(World(node)), old(node.pendingActivated),
              World(node))) == Some(World(node))
  {
    match call
    case DexWrapAnet(a, x) => var _ := node.DexWrapAnet(a, x);
    case DexUnwrapWanet(a, x) => var _ := node.DexUnwrapWanet(a, x);
  }

  method NewToken(node: NodeState.NodeState, call: Call)
    requires call.CreateToken?
    modifies node
    ensures OffBlock.Do(node.hashOf, old(World(node)), EventOf(call, old(World(node)), old(node.pendingActivated),
              World(node))) == Some(World(node))
  {
    var _ := node.Anrc20CreateToken(call.owner, call.symbol, call.name, call.decimals, call.supply, call.mintable);
  }

  method MoveToken(node: NodeState.NodeState, call: Call)
    requires call.MintToken? || call.TransferToken?
    modifies node
    ensures OffBlock.Do(node.hashOf, old(World(node)), EventOf(call, old(World(node)), old(node.pendingActivated),
              World(node))) == Some(World(node))
  {
    match call
    case MintToken(c, to, s, x) => var _ := node.Anrc20Mint(c, to, s, x);
    case TransferToken(f, to, s, x) => var _ := node.Anrc20Transfer(f, to, s, x);
  }

  method MoveOrBurn(node: NodeState.NodeState, call: Call)
    requires call.MigrateLegacyToSecp? || call.BridgeBurnAnet?
    modifies node
    ensures OffBlock.Do(node.hashOf, old(World(node)), EventOf(call, old(World(node)), old(node.pendingActivated),
              World(node))) == Some(World(node))
  {
    match call
    case MigrateLegacyToSecp(l, s) => var _ := node.MigrateLegacyToSecp(l, s);
    case BridgeBurnAnet(a, amount) => var _ := node.BridgeBurnAnet(a, amount);
  }

  /** A sync changes the accounts, and then the seats. */
  method Sync(node: NodeState.NodeState, rows: seq<Activation.Snapshot>, written: bool)
    modifies node
    ensures
      var w, v := old(World(node)), World(node);
      var synced := OffBlock.Do(node.hashOf, w, EventOf(SyncActivatedAccounts(rows, written), w,
        old(node.pendingActivated), v));
      synced.Some? && OffBlock.Do(node.hashOf, synced.value, OffBlock.Reseat(v.node.miners)) == Some(v)
  {
    ActivatedSupply.RowsKeptWhenEnds(node.accounts, rows, node.pendingActivated);
    var _ := node.SyncActivatedAccounts(rows, written);
  }

  /** What a call is in a run. */
  function EventsOf(call: Call, w: OffBlock.World, pending: u64, v: OffBlock.World): seq<OffBlock.Event> {
    if call.SyncActivatedAccounts? then [EventOf(call, w, pending, v), OffBlock.Reseat(v.node.miners)]
    else [EventOf(call, w, pending, v)]
  }

  lemma OneEvent(hashOf: Body -> string, w: OffBlock.World, ev: OffBlock.Event)
    ensures OffBlock.Play(hashOf, w, [ev]) == OffBlock.Do(hashOf, w, ev)
  {
    assert [ev][1..] == [];
  }

  lemma TwoEvents(hashOf: Body -> string, w: OffBlock.World, x: OffBlock.Event, y: OffBlock.Event)
    requires OffBlock.Do(hashOf, w, x).Some?
    ensures OffBlock.Play(hashOf, w, [x, y]) == OffBlock.Do(hashOf, OffBlock.Do(hashOf, w, x).value, y)
  {
    assert [x, y][1..] == [y];
    OneEvent(hashOf, OffBlock.Do(hashOf, w, x).value, y);
  }

  lemma {:induction false} PlayOn(hashOf: Body -> string, w: OffBlock.World, xs: seq<OffBlock.Event>,
                                  ys: seq<OffBlock.Event>)
    requires OffBlock.Play(hashOf, w, xs).Some?
    ensures OffBlock.Play(hashOf, w, xs + ys) == OffBlock.Play(hashOf, OffBlock.Play(hashOf, w, xs).value, ys)
    decreases xs
  {
    if xs == [] {
      assert xs + ys == ys;
    } else {
      assert (xs + ys)[1..] == xs[1..] + ys && (xs + ys)[0] == xs[0];
      PlayOn(hashOf, OffBlock.Do(hashOf, w, xs[0]).value, xs[1..], ys);
    }
  }

  /** Main result: whatever a call returns, the node is afterwards in the state its events lead to. */
  method Perform(node: NodeState.NodeState, call: Call) returns (ghost evs: seq<OffBlock.Event>)
    modifies node
    ensures evs == EventsOf(call, old(World(node)), old(node.pendingActivated), World(node))
    ensures OffBlock.Play(node.hashOf, old(World(node)), evs) == Some(World(node))
  {
    ghost var w, pending := World(node), node.pendingActivated;
    match call {
      case SyncActivatedAccounts(rows, written) =>
        Sync(node, rows, written);
      case QueueTransaction(_) => QueueOrSeal(node, call);
      case QueueBridgeCredit(_, _, _, _, _) => QueueOrSeal(node, call);
      case CreateBlock(_, _, _) => QueueOrSeal(node, call);
      case MigrateLegacyToSecp(_, _) => MoveOrBurn(node, call);
      case BridgeBurnAnet(_, _) => MoveOrBurn(node, call);
      case CreateToken(_, _, _, _, _, _) => NewToken(node, call);
      case MintToken(_, _, _, _) => MoveToken(node, call);
      case TransferToken(_, _, _, _) => MoveToken(node, call);
      case DexSwap(_, _, _, _, _, _) => Trade(node, call);
      case DexWrapAnet(_, _) => Wrap(node, call);
      case DexUnwrapWanet(_, _) => Wrap(node, call);
      case _ => ChangePool(node, call);
    }
    var v := World(node);
    evs := EventsOf(call, w, pending, v);
    if call.SyncActivatedAccounts? {
      TwoEvents(node.hashOf, w, EventOf(call, w, pending, v), OffBlock.Reseat(v.node.miners));
    } else {
      OneEvent(node.hashOf, w, EventOf(call, w, pending, v));
    }
  }

  /** Main result: a series of calls is a run, so everything proved of runs holds of the node in place. */
  method PerformAll(node: NodeState.NodeState, calls: seq<Call>) returns (ghost evs: seq<OffBlock.Event>)
    modifies node
    ensures OffBlock.Play(node.hashOf, old(World(node)), evs) == Some(World(node))
  {
    evs := [];
    ghost var w := World(node);
    for i := 0 to |calls|
      invariant OffBlock.Play(node.hashOf, w, evs) == Some(World(node))
    {
      var more := Perform(node, calls[i]);
      PlayOn(node.hashOf, w, evs, more);
      evs := evs + more;
    }
  }
}
