/** The bridge credit handler and the restart (src/rpc.rs:1822-1863, src/state.rs:2334-2401),
    as they change the running node, proved against the protocol of `BridgeDedup`. */
module BridgeApi {
  import opened Wrappers
  import opened Ledger
  import opened Mempool
  import BridgeDedup
  import LedgerLoops
  import NodeState
  import NonceHistory
  import Text

  /** The node as the protocol of `BridgeDedup` sees it. */
  function View(node: NodeState.NodeState): BridgeDedup.Live
    reads node
  {
    BridgeDedup.Live(node.View(), node.processedHashes)
  }

  /** `post_admin_bridge_evm_credit` once the caller is authorised: look up, queue and insert
      under one lock. A hash already processed is answered without a credit. */
  method CreditEvmSwap(node: NodeState.NodeState, evmTxHash: string, rawRecipient: string, amount: u64, now: int,
                       id: string)
    returns (r: Result<u64, NodeError>)
    modifies node`accounts, node`mempool, node`bridgeFunded, node`processedHashes
    ensures
      var to := Text.AsciiUpper(Text.Trim(rawRecipient));
      && View(node) == BridgeDedup.HandleRequest(old(View(node)), evmTxHash, to, amount, now, id)
      && (r.Failure? ==> View(node) == old(View(node)))
      && (r.Success? ==> BridgeDedup.DedupKey(evmTxHash) in node.processedHashes)
  {
    var recipient := Text.AsciiUpper(Text.Trim(rawRecipient));
    var key := Text.AsciiLower(evmTxHash);
    if key in node.processedHashes {
      return Success(Balance(node.accounts, recipient));
    }
    Text.NormalisedOnce(rawRecipient);
    r := node.QueueBridgeCredit(recipient, amount, key, now, id);
    if r.Success? {
      node.processedHashes := node.processedHashes + {key};
    }
  }

  /** A restart: replay the stored chain, rebuild nonces and both sets. */
  method Restart(genesis: Accounts, durable: seq<Block>, miners: seq<Address>, chainId: string)
    returns (live: Option<BridgeDedup.Live>)
    ensures live == BridgeDedup.Reload(genesis, durable, miners, chainId)
  {
    var accounts := LedgerLoops.ReplayBlocks(genesis, durable);
    if accounts.Failure? {
      return None;
    }
    var nonces := NonceHistory.RebuildAccountNonces(durable);
    if nonces.None? {
      return None;
    }
    var funded := BridgeDedup.CollectBridgeFundedAccounts(durable);
    var hashes := BridgeDedup.CollectProcessedBridgeHashes(durable);
    return Some(BridgeDedup.Live(Node(accounts.value, [], nonces.value, durable, miners, funded, chainId), hashes));
  }
}
