# A-Network L1: a verified model

This project models the parts of the A-Network L1 node and of its payout scripts that move
value, and proves what they keep. `dafny verify dfyconfig.toml` checks everything.

## How it is built

* **Ledger.** A block is a list of debit and credit entries. `Ledger.Apply` runs entries with
  the node's checked 64-bit arithmetic; `LedgerLoops` proves that the node's loops over
  transactions, miners and top-ups do exactly that.
* **Replay.** `Replay` holds the simulation that tops up a sender whenever it falls short, and
  the two-pass form the node uses: all top-ups first, then the history.
* **Queue, seal, nonces.** `Mempool` states queueing and sealing as functions of a `Node`;
  `Runs` and `Solvency` prove what every reachable state keeps, calls that fail included;
  `SpentQueue` is what becomes of a queue when balances are spent under it;
  `NonceHistory` and `LiveReplay` compare a running node with one that restarts from its blocks,
  and `OffBlock` and `PoolRestart` do so for runs that also change accounts outside blocks.
* **Start-up.** `Boot` builds the accounts of a genesis and starts a node from stored blocks;
  `Snapshot` is the genesis file a sync rewrites, and the restart from it.
* **The node in place.** `NodeState.NodeState` is the mutable node. Its methods follow the code
  step by step, and each is proved against the function above that the results about runs are
  stated over; `NodeRuns` proves that series of its calls are those runs. `NodeLoops` has the loops
  inside them.
* **DEX and tokens.** `DexMath` is the rounded arithmetic, `Dex` the pools and wrapping,
  `DexErrors` what an Err leaves behind, `Anrc20` the two ledgers of a token,
  `WanetIssue` the token that is also wrapped ANET, `MigratedTokens` what a migration does to both.
* **Activation.** `Activation` and `ActivatedSupply`: snapshot credits, clawback, migration, burn.
* **Signing.** `CanonicalJson` prints and parses canonical JSON; `Preimages` builds the texts
  that are hashed and signed.
* **Durable chain.** `ChainStore` (two tables, two non-atomic writes), `Consensus` (windows,
  producer, validator and hash formats), `Validators` (seats and shares).
* **Protocols with crashes.** `BridgeDedup`, `BridgeMemory` and `BridgeApi` for bridge credits;
  `PayoutExecutor`, `PayoutWorker`, `PayoutIngest`, `PayoutRuns`, `PayoutCaps`
  and `WorkerRuns` for payouts.
* **Display.** `Amounts`.
* **In plain terms.** `Acceptance`, `BlockContents`, `EpochTerms`, `SeatOrder`, `DexTerms`,
  `TokenTerms`, `PayoutTerms` and `SigningLayout` say of the main operations when they succeed and
  all that they change, in numbers, fields and characters instead of the functions that compute them.

Cryptography is opaque. `Auth.genuine` stands for "hash and signature check out", `id` for a
transaction's hash, and the block hash is a function parameter `hashOf` of which at most "no
hash is the GENESIS marker" is assumed. Clocks, databases, the chain and remote services enter
as inputs.

## Where code and documentation disagree

The model follows the code. Each point below is a theorem, with the exact condition where one
exists.

* `queue_bridge_credit` promises that live and replayed state stay byte-identical
  (`src/state.rs:1042-1047`). Balances agree exactly when no refused seal dropped a queued credit:
  the queue is emptied before the block is built (`src/state.rs:2226`), and the funding stays in the
  live treasury. The states are identical exactly when, besides, none was sealed, because a replay
  top-up also counts as activated supply (`LiveReplay.RestartMatchesLive`,
  `LiveReplay.OneCreditTellsRestart`).
* `bridge_burn_anet` calls a burn permanent (`src/state.rs:1126`), but no block records it, and a
  restart gives the ants back (`OffBlock.RestartUndoesBurn`). What trades
  and migrations moved since the genesis file was written is undone alike
  (`OffBlock.RestartForgetsOffBlock`).
* Pools come back from the last block and balances from the genesis file and the blocks, so pooled
  ANET exists twice after a restart, and tokens outside pools not at all, although the registry still
  lists them (`PoolRestart.RestartDoublesPooledAnet`, `PoolRestart.RestartKeepsPooledTokensOnly`,
  `PoolRestart.RestartStrandsTokens`).
* WANET is documented as ANET wrapped one for one (the repository's `README.md:86-88`).
  Symbols reserve only ANET
  (`src/dex.rs:86-106`), so any signed wallet may create the token WANET (`src/rpc.rs:765`,
  `src/rpc.rs:3448`) and an eligible one may unwrap the issued units to ants nobody wrapped. ANET is
  conserved exactly when no token call issues WANET (`WanetIssue.TokenRunsMakeAnet`,
  `WanetIssue.WanetForNothing`).
* The queue checks that a sender can pay, and nothing reserves the ants. A burn or a trade may spend
  them, and the seal that then fails has already emptied everybody's queue (`src/state.rs:2226`);
  when it does is exact (`SpentQueue.SealsIffAfloat`, `SpentQueue.SpenderDecidesSeal`).
* The clawback checks its total after it has reduced the balance. Unless the removals fit 64 bits
  this can leave a wallet with more activated than owned, and no later sync that reaches it succeeds
  (`ActivatedSupply.ActivatedNeverExceedsBalance`, `ActivatedSupply.TwoLargeWalletsBreakClawback`).
* `bridge_burn_anet` promises that exactly the bridged amount is destroyed
  (`src/state.rs:1131-1136`). Without a reserve account part of the fee is destroyed too
  (`ActivatedSupply.BurnDestroysExactlyAmount`, `ActivatedSupply.ThreeSeatsLoseAnAnt`).
* Sealed chains are meant to reload. The block sort looks at timestamps before nonces, so they
  do exactly when each sender's timestamps follow its nonces (`NonceHistory.SealedChainReloads`),
  and the queue accepts others (`NonceHistory.BackwardClockPairIsQueued`).
* A chain the producer makes passes its own validator exactly when the first sealed window does
  not start before genesis ends (`Consensus.ProducedChainValidates`).
* Bridge credits are meant to be idempotent per EVM hash. The handler's key is not trimmed while
  the memo is, so white space around a hash defeats the guard (`BridgeDedup.KeySurvivesRestart`,
  `BridgeDedup.PaddedHashCreditsTwice`). The rebuild at start-up reads the memos of signed transfers
  too, and a credit lost in a failed seal is remembered as processed
  (`BridgeMemory.RebuiltSetsAreLiveIff`, `BridgeMemory.LostCreditWaitsForRestart`).
* A sync writes the activated remainders to the genesis file, and the next start replays the
  whole history over them. What was spent before the snapshot is then spent twice: no address
  gains, and one keeps its balance exactly when it never spent or was once at zero
  (`Snapshot.SnapshotReload`, `Snapshot.SnapshotAfterSync` when the sync credits first).
* An interrupted first start leaves a genesis row without a tip, and the same genesis cannot be
  inserted again (`ChainStore.InterruptedStoreCannotRepeat`).
* Err results of the DEX, of a migration and of token operations are not rolled back; when they
  are clean is exact (`DexErrors.ErrIsCleanUnlessFirstDebitPaid`,
  `ActivatedSupply.MigrationErrIsClean`, `Anrc20.TransferErrIsClean`, `Anrc20.MintErrIsClean`).
* The registry refuses units that an account owns: a transfer succeeds exactly when both ledgers
  credit the sender (`Anrc20.TransferSucceedsIff`, `Anrc20.BoughtUnitsDoNotTransfer`). A migration is
  meant to move everything, and the registry is not told
  (`MigratedTokens.MigratedUnitsDoNotTransfer`).
* A repeated payout is meant to get its first answer. It does exactly when that answer was filed
  under its request id (`PayoutExecutor.RepetitionsGetTheSameAnswer`).
* The hourly payout cap bounds the worker's books. A payout whose reply is lost is made and not
  booked, so more can be sent (`PayoutCaps.HourlyOutgo`, `PayoutCaps.LostReplyDoublesHour`).
* Payout ingestion is meant to skip repeats. Two swaps of one wallet without request ids share a
  made-up id within a pass but not across passes (`PayoutIngest.SecondSwapWaitsForNextPass`).

## Model

| member | source | states |
|---|---|---|
| `Replay.ReplayNeverUnderflows` | src/state.rs:2427-2492 | For any genesis and any history with positive debits, reconcile-then-replay never meets a missing sender or an underflow: it can only fail on 64-bit overflow, and when it succeeds every balance is the simulation's balance plus the credit not yet used |
| `Replay.ReplayAgreesWithSimulation` | src/state.rs:2324-2332 | If no address could exceed 64 bits by keeping all it owned, spent or received, simulation and replay both succeed and every final balance agrees |
| `Replay.TopUpsAreLeast` | src/state.rs:2427-2492 | Up-front amounts that fit 64 bits make the replay succeed if and only if each covers the reconciliation's top-up for that address: the top-ups are the pointwise least |
| `Replay.SolventHistoryUntouched` | src/state.rs:2427-2492 | A history that is already solvent gets no top-up at all, and its replay is the plain application |
| `Replay.ReplayIsSimulation` | src/state.rs:2427-2492 | The two-pass replay ends in the very accounts of the on-the-fly simulation, field by field including the activation counters, when no genesis account has more activated than owned |
| `Replay.EnoughCreditReplays` | src/state.rs:2427-2492 | With at least the simulation's credit up front, the real run follows the simulation entry by entry |
| `Replay.ReplayNeedsCredit` | src/state.rs:2427-2492 | A real run that succeeds never used more credit than the simulation had to add |
| `Replay.TopUpIsDeepestShortfall` | src/state.rs:2427-2492 | The reconciliation tops an address up by exactly the depth to which its running balance would have sunk below zero |
| `Replay.ReplayedBalance` | src/state.rs:2324-2332 | A replay gives every address its starting balance plus credits minus debits plus that shortfall |
| `Replay.AppliedStaysAfloat` | src/state.rs:2571-2600 | A history that applies never takes a running balance below zero |
| `Replay.AppliesIffAfloat` | src/state.rs:2571-2600 | While debits are positive and no credit can leave 64 bits, a history applies to any accounts if and only if no running balance ever falls below zero |
| `LedgerLoops.PayMiners` | src/state.rs:2602-2659 | The miner loop credits exactly the shares of the entry list, or fails with its error and keeps the credits before it |
| `LedgerLoops.DistributeFees` | src/state.rs:2602-2659 | The fee distribution is the run of the block's fee entries: shares to miners, remainder or everything to the reserve; an error keeps what was paid before it |
| `LedgerLoops.ApplyTransaction` | src/state.rs:2571-2600 | One transaction is one debit and one credit, with the same error at the same check; a refused credit leaves the debit made |
| `LedgerLoops.ApplyBlock` | src/state.rs:2571-2600 | Applying a block is running its entries in order, results, errors and what an error leaves alike |
| `LedgerLoops.SimulateDebit` | src/state.rs:2427-2492 | The reconciliation's debit raises the sender by exactly its deficit and records it |
| `LedgerLoops.SimulateBlock` | src/state.rs:2427-2492 | The simulation pass over a block is the simulated run of its entries |
| `LedgerLoops.ReconcileReplaySenderBalances` | src/state.rs:2427-2492 | The reconciliation adds the recorded top-ups, in whatever order the map yields them, to the starting accounts |
| `LedgerLoops.AddTopUps` | src/state.rs:2473-2491 | Adding top-ups one account at a time equals adding them all, and fails exactly when one does not fit |
| `LedgerLoops.ReplayBlocks` | src/state.rs:2324-2332 | `replay_blocks` is reconcile then apply over the entries of the whole chain |
| `Ledger.ApplyBalance` | src/state.rs:2571-2600 | An applied run moves every balance by exactly its credits minus its debits |
| `Ledger.NoCreditOverflow` | src/state.rs:2571-2600 | If no address can exceed 64 bits by its credits, no run fails on a credit |
| `Ledger.KeptIsPrefix` | src/state.rs:2571-2659 | What a failing run leaves is a successful run of a first part of its entries |
| `Solvency.FeesAreHandedOut` | src/block.rs:120-125 | Miner shares plus remainder are exactly the fees collected |
| `Solvency.CoveredTransfersApply` | src/state.rs:2571-2600 | Transfers whose senders are covered all apply, and take exactly their fees out of the supply |
| `Solvency.CoveredBlockApplies` | src/state.rs:2571-2659 | A block of covered transfers applies and leaves the supply unchanged |
| `Solvency.AnyOrderSeals` | src/state.rs:2417-2425 | Every order of the same covered transfers applies and ends in the same accounts, with the supply unchanged |
| `Solvency.ApplyRecord` | src/state.rs:2571-2600 | Balance and activated remainder after a run depend only on the totals credited and debited |
| `Runs.RunIsSound` | src/state.rs:824-944 | After any sequence of calls, whatever each returns, that queue transfers, queue bridge credits, credit activation rows or seal, with a database that may be unreadable or refuse to store, each sender's pending debits are covered by its balance and its pending nonces are distinct and gapless above the committed one |
| `Runs.SealSucceeds` | src/state.rs:2210-2275 | From such a state a block is built and applied if and only if the window is not empty and every queued memo validates; that empties the queue and keeps the supply |
| `Runs.SealAppendsIff` | src/state.rs:2210-2288 | A call of `create_block` appends exactly one block if and only if, besides, the database stores it; the queue is empty afterwards unless the last hash could not be read, and then nothing has changed |
| `Runs.TxBeforeIsPreorder` | src/state.rs:2417-2425 | The four-key comparison is a total preorder, so the sort is well defined |
| `Runs.SortedQueue` | src/state.rs:2417-2425 | The block order is sorted by the four keys and is a rearrangement of the queue |
| `Runs.TransferKeepsSound` | src/state.rs:824-944 | An accepted transfer keeps solvency and gapless nonces |
| `Runs.BridgeCreditKeepsSound` | src/state.rs:1050-1124 | A queued bridge credit funds exactly what it will take |
| `Runs.SealKeepsSound` | src/state.rs:2269-2275 | A seal keeps the invariant whether it succeeds, is refused, fails to apply, fails to be stored or does not begin |
| `Acceptance.AcceptedIff` | src/state.rs:824-944 | A transaction is queued if and only if it is a proper transfer, genuinely signed with the trimmed chain id of this node and a positive nonce, fewer than 10000 are queued, both parties are known and funded or have 1000 sessions, its nonce is the least free one of its sender, its id is new, and the sender owns it besides what the queue takes already; nothing else changes |
| `Acceptance.ValidBasicIs` | src/transaction.rs:205-250 | The basic checks are: two different wallets, a positive amount, a fee of at least 1000 and a memo of at most 160 characters without control characters but tab, line feed and carriage return |
| `Acceptance.CreditedIff` | src/state.rs:1050-1124 | A bridge credit is queued if and only if it is positive, its recipient is a wallet other than the treasury and the treasury has room for amount and fee; everything it changes is stated |
| `Acceptance.RunStaysBound` | src/transaction.rs:178-203 | Over any run of calls, everything queued and everything sealed names the trimmed chain id of the node, and whatever is signed is signed by its sender |
| `BlockContents.SealedBlock` | src/state.rs:2210-2289 | A successful seal appends one block: the next height, the last hash as its link, the given window, the current seats, fees and shares that add up, its own hash, and the queue rearranged by timestamp, sender, nonce and hash, ties in queue order |
| `BlockContents.RunsFollow` | src/state.rs:2215-2224 | Over any run of calls, whatever each returns, the chain only grows and every block it gains follows the one before in height, link and hash |
| `BlockContents.HeightsCount` | src/state.rs:2215-2219 | Over a chain whose first block has height h, block i has height h + i while that fits 64 bits, and the greatest 64-bit number beyond |
| `BlockContents.RunHeights` | src/state.rs:2215-2219 | So in every run of a node that starts from its genesis block |
| `BlockContents.BlockMoves` | src/state.rs:2571-2659 | An applied block moves each balance by the amounts it receives, minus amounts and fees it pays, plus a fee share for every seat; the reserve gets what does not divide, or all without seats |
| `SpentQueue.TransfersApplyIffAfloat` | src/state.rs:2571-2600 | While all ants fit 64 bits, transfers apply in the given order, from any accounts, if and only if they take nobody's running balance below zero |
| `SpentQueue.SealsIffAfloat` | src/state.rs:2210-2275 | Whatever happened to the balances since the queue was filled, it seals if and only if the window is not empty, every transfer validates and, in block order, nobody's running balance falls below zero |
| `SpentQueue.SpenderDecidesSeal` | src/state.rs:2226-2275 | When one address spends outside blocks after a covered queue was filled, the next seal appends a block if and only if it would have and the spender stays afloat; otherwise the whole queue is gone. Without queued income the spender stays afloat if and only if what it kept covers its own queued debits |
| `SpentQueue.BurnLosesQueueIff` | src/state.rs:1137-1181 | A burn followed by a seal loses everybody's queue if and only if it leaves less than the burner's queued debits, for a burner without queued income |
| `SpentQueue.WrapLosesQueueIff` | src/state.rs:1455-1474 | The same for ants that are wrapped |
| `NonceHistory.RisingIffTimestampsFollow` | src/state.rs:2417-2425 | The sort puts each sender's nonces in rising order if and only if its queued timestamps are non-decreasing in nonce |
| `NonceHistory.SealedChainReloads` | src/state.rs:2374-2401 | A chain extended by a seal is accepted by the nonce rebuild if and only if timestamps followed nonces in the sealed queue, and the rebuilt nonces are then the live ones |
| `NonceHistory.OrderedRunReloads` | src/state.rs:2374-2401 | In every run all of whose steps are ordered the chain reloads with the live nonces |
| `NonceHistory.StepReloadsIffOrdered` | src/state.rs:2374-2401 | One call keeps the reload if and only if it is not a seal that applies, or is a stored one with ordered timestamps, or an unstored one of bridge credits only |
| `NonceHistory.UnstoredSealDiverges` | src/state.rs:2269-2276 | A block that is applied but not stored has moved the live nonces: they are the rebuilt ones again if and only if it held bridge credits only |
| `NonceHistory.BackwardClockBreaksReload` | src/state.rs:2374-2401 | Counterexample: two transactions stamped against nonce order are sealed in an order the rebuild rejects |
| `NonceHistory.BackwardClockPairIsQueued` | src/state.rs:824-944 | Such a pair passes every check of the queue, for any sender who can pay two fees and two ants |
| `NonceHistory.NextNonceIsExpected` | src/state.rs:2374-2401 | In a block with rising, gapless nonces every transaction carries its sender's next nonce |
| `NonceHistory.RebuiltNoncesRise` | src/state.rs:2374-2401 | A rebuild that succeeds has seen every sender's nonces rise |
| `NonceHistory.RebuildAccountNonces` | src/state.rs:2374-2401 | The rebuild loop is the fold over all stored transactions, error included |
| `LiveReplay.RestartMatchesLive` | src/state.rs:1042-1047 | Over calls that may fail, with every built block applied and stored: whenever the queue is empty a replay of the sealed blocks succeeds and agrees with every account but the treasury's in all fields. All balances agree if and only if no refused seal dropped a bridge credit, and the states are identical if and only if, besides, none was sealed |
| `LiveReplay.OneCreditTellsRestart` | src/state.rs:2226-2239 | Both conditions fail with one credit: sealed, it makes the states differ; with a memo that does not validate, its seal is refused and the live treasury keeps funds no restart rebuilds |
| `OffBlock.RestartForgetsOffBlock` | src/state.rs:337-356 | Over any run of calls, seals, syncs, trades, migrations, burns and token calls, and for whatever genesis file the restart reads: replayed minus live balance is that file's balance plus the deepest shortfall of the blocks, minus the first genesis and minus what was gained outside blocks; from the same file the balance survives if and only if gain and shortfall are equal |
| `OffBlock.SolventRestartUndoesOffBlock` | src/state.rs:337-356 | When the blocks apply to the genesis as it is, a restart takes from each address exactly what it gained outside blocks, and keeps its balance if and only if that is zero |
| `OffBlock.OnlyOffChainStepsGain` | src/state.rs:1050-1124 | That gain is exactly what syncs, trades, migrations and burns did; for the treasury also the funding of its bridge credits. Queueing, sealing and token calls, Ok or Err, add nothing |
| `OffBlock.RestartUndoesBurn` | src/state.rs:1126-1222 | Counterexample family: a burn is called permanent, but a restart after it is the restart before it, so the wallet has amount and fee back |
| `OffBlock.BuiltBlockPays` | src/block.rs:95-150 | Every debit of a built block is positive |
| `NodeRuns.Perform` | src/state.rs:824-1312 | Whatever a call of the mutable node returns (queueing, sealing, sync, migration, burn, every DEX and token operation), the node is afterwards in the state that the events of this call lead to in the runs of OffBlock |
| `NodeRuns.PerformAll` | src/state.rs:824-1312 | A series of calls is such a run, so what is proved of runs holds of the node in place |
| `PoolRestart.RestartDoublesPooledAnet` | src/state.rs:314-356 | Over any run of transfers, whole seals, and Ok trades and token calls from a start without pools and wrapped ANET, and for any genesis file with as many ants, a restart changes the ANET total by exactly what the pools of the last block hold plus the top-ups minus the WANET units issued; when none was issued the total never falls and survives if and only if that block has no pool and nobody needed a top-up |
| `PoolRestart.RestartedAnet` | src/state.rs:337-356 | For any run and any genesis file, the ANET total after a restart against the live one |
| `PoolRestart.RestartKeepsPooledTokensOnly` | src/state.rs:2403-2408 | After a restart nobody holds units of any token: its total is its pool's reserve, which is the live total, for an unchanged pool, if and only if nobody held any |
| `PoolRestart.RestartStrandsTokens` | src/state.rs:2410-2415 | The registry comes back and the account units do not: after a restart no token transfer succeeds, and the two ledgers of a token agree if and only if the registry lists nobody |
| `PoolRestart.ReplayedTotals` | src/state.rs:2324-2332 | A replay has the supply of the genesis file plus top-ups plus the chain's net, and no assets |
| `PoolRestart.BuiltBlockIsEven` | src/block.rs:95-150 | A built block credits exactly what it debits |
| `LiveReplay.ReconcileFundsTreasuryOnly` | src/state.rs:2427-2492 | After such a run the reconciliation tops up the treasury by exactly what the sealed credits took, and no other address |
| `LiveReplay.ApplyRemark` | src/state.rs:2571-2600 | Activation counters never influence whether or how a run applies |
| `LiveReplay.TreasuryGetsNoFees` | src/state.rs:2602-2659 | Fee distribution never touches the treasury when it holds no validator seat |
| `Snapshot.SnapshotReload` | src/state.rs:2291-2313 | A restart from a snapshot taken after a history of a genuine genesis succeeds and no address gains; an address keeps its balance if and only if it never spent or the lowest point of its running balance was zero |
| `Snapshot.SnapshotAfterSync` | src/state.rs:633-709 | The same with the sync that wrote the snapshot crediting and clawing back first: a spender with genesis money keeps its balance if and only if its lowest balance equals what the sync clawed back from it |
| `Snapshot.ReloadOf` | src/state.rs:2291-2313 | The loss in full: genesis money spent, less the shortfall that the reconciliation makes up |
| `Snapshot.SpentTwice` | src/state.rs:2295-2302 | A wallet without income that kept at least half loses by such a restart exactly what it had spent |
| `Snapshot.TransferIsSpentTwice` | src/state.rs:2295-2302 | One such restart in numbers: a transaction of 39000 ants and the least fee out of 100000 leaves 20000 instead of 60000 |
| `Snapshot.SpenderLosesUnlessBroke` | src/state.rs:2291-2313 | A wallet without income keeps its balance over such a restart if and only if it had spent nothing or everything |
| `Snapshot.RowsGiveSnapshot` | src/state.rs:320-334 | Start-up reads back the snapshot's accounts from its rows, whatever their order |
| `Snapshot.SnapshotAccountIs` | src/state.rs:2291-2313 | What the next start makes of an account: the activated remainder as balance, nothing of one without remainder and sessions |
| `Snapshot.PersistGenesisSnapshot` | src/state.rs:2291-2313 | Filter, conversion and sort write rows in address order from which start-up builds exactly the snapshot's accounts |
| `Boot.FromGenesis` | src/state.rs:314-383 | A start succeeds exactly when the stored chain validates, replays and yields nonces; the node then is the replayed one and holds the rebuilt hashes and recipients, and its seats depend on the genesis accounts only |
| `Boot.GenesisIsActivatedOk` | src/state.rs:320-334 | Genesis accounts have no more activated than owned |
| `Boot.RestartIsSound` | src/state.rs:337-356 | A node restarted from blocks of accepted transactions is again sound, so what is proved of runs holds across restarts |
| `Boot.RunSealsAcceptedTxs` | src/state.rs:2210-2275 | The blocks of a run hold accepted transactions only |
| `NodeState.NodeState.constructor` | src/state.rs:358-382 | A started node has nothing pending and holds exactly what was loaded |
| `NodeState.NodeState.QueueTransaction` | src/state.rs:824-944 | In-place queueing: accepted exactly when no check refuses, the reported error is that of the first failing check, and a refusal changes nothing |
| `NodeState.NodeState.CheckNonce` | src/state.rs:866-912 | The sorted gap loop accepts exactly the least nonce above the committed one that is not pending |
| `NodeState.NodeState.CheckFunds` | src/state.rs:923-940 | The checked pending sum and the balance test accept exactly when balance covers pending debits plus this one |
| `NodeLoops.ExpectedNonce` | src/state.rs:893-904 | The gap loop returns the least free nonce; its checked additions cannot overflow because a free nonce lies above |
| `NodeLoops.NextNonce` | src/state.rs:866-905 | Collect, sort and scan together yield the least free nonce of the queue |
| `NodeLoops.PendingOutgoing` | src/state.rs:923-931 | The checked fold is the sender's pending total, or an error exactly when that exceeds 64 bits |
| `NodeLoops.BuildBlock` | src/block.rs:95-150 | `Block::new`: same refusals, fee total and fee per miner as the specification |
| `NodeLoops.CommitAll` | src/state.rs:2269-2272 | The commit loop leaves each sender with its last nonce in block order |
| `NodeState.NodeState.QueueBridgeCredit` | src/state.rs:1050-1124 | Normalises, pre-funds the treasury, queues the unsigned transfer and marks the recipient funded, or changes nothing; the result is the projected balance |
| `NodeState.NodeState.CreateBlock` | src/state.rs:2210-2288 | In-place sealing leaves exactly the node of the sealing function whatever happens: not begun, refused, not applied, not stored or appended; the pending activation counter is taken with the queue, and the error is that of the first step that fails |
| `NodeState.NodeState.CommitBlock` | src/state.rs:2263-2276 | Apply, commit nonces, store, append: a ledger error keeps the part already applied, a failing store keeps accounts and nonces without the block |
| `NodeState.NodeState.SyncActivatedAccounts` | src/state.rs:633-734 | The two loops credit and claw back exactly as the sync function says; the sync succeeds exactly when all totals fit 64 bits and the genesis file, if anything changed, takes the new snapshot; then the seats are derived again. An error leaves the rows before it credited, some wallets cleared, or everything synced, and the seats |
| `NodeState.NodeState.CreditRows` | src/state.rs:644-687 | The row loop credits exactly the rises of the watermarks, counts them into the pending supply and says whether anything was raised; an error keeps the rows before it |
| `NodeState.NodeState.ClawBackUnlisted` | src/state.rs:689-705 | The account loop, in any iteration order, takes back exactly the activated remainders of unlisted wallets below the threshold; an error stops at one wallet, untouched or with its balance already reduced, with some others cleared |
| `NodeState.NodeState.RefreshValidators` | src/state.rs:711-718 | The seats do not depend on the order in which the account map is enumerated |
| `NodeState.NodeState.MigrateLegacyToSecp` | src/state.rs:1232-1312 | Moves everything or fails; a failure after the first checks leaves the legacy account emptied and the new one grown by the fields before the one that overflows |
| `NodeLoops.MergeAssets` | src/state.rs:1299-1304 | The asset loop merges both maps symbol by symbol and fails exactly when a sum exceeds 64 bits |
| `NodeState.NodeState.BridgeBurnAnet` | src/state.rs:1137-1222 | The burn debits amount and fee and shares the fee as specified, with the same error at the same check; a failing share keeps the debit and the shares before it |
| `NodeState.NodeState.DexCreatePool` | src/state.rs:1396-1453 | Creates the pool of the specification; on Err the pools are unchanged and the accounts are exactly the residue described in `DexErrors` |
| `NodeState.NodeState.DexAddLiquidity` | src/state.rs:1493-1584 | Adds liquidity as specified; on Err before 128-bit overflow the pools are unchanged and the accounts are the residue |
| `NodeState.NodeState.DexSwap` | src/state.rs:1685-1832 | Swaps as specified and returns the quoted output; on Err the accounts are the residue, and only overflow or an invariant violation can have touched the pool |
| `NodeState.NodeState.DexWrapAnet` | src/state.rs:1455-1474 | Wraps one for one, or leaves the residue |
| `NodeState.NodeState.DexUnwrapWanet` | src/state.rs:1476-1491 | Unwraps one for one, or leaves the residue |
| `NodeLoops.InitialLpUnits` | src/dex.rs:112-126 | For 64-bit deposits the Newton root is in range and gives the specified initial units |
| `NodeLoops.MintedUnits` | src/state.rs:1519-1538 | Ratio check and minted units, with every floor and every overflow check |
| `NodeState.NodeState.Anrc20CreateToken` | src/state.rs:1931-1998 | Registers the token and credits the owner, or changes nothing |
| `NodeState.NodeState.Anrc20Mint` | src/state.rs:2000-2065 | Mints in both ledgers; on Err the market is exactly the stated one: the registry grown when only the account ledger refuses, otherwise unchanged |
| `NodeState.NodeState.Anrc20Transfer` | src/state.rs:2067-2132 | Moves units in both ledgers; on Err the market is exactly the stated one: the account side as far as it got, then the registry |
| `Anrc20.TokensMatchSupply` | src/state.rs:1931-2132 | Over any run of Ok token and DEX operations each token's registered balances sum to its supply, and for every symbol but WANET what accounts and pool hold of it exceeds that supply by a constant |
| `WanetIssue.TokenRunsMakeAnet` | src/dex.rs:86-106 | Over the same runs the ANET total grows by exactly the WANET units that creations and mints issue, which is what they add to the registered supply of WANET; so ANET is conserved if and only if none is issued. What accounts and pool hold of WANET exceeds its registered supply by what was wrapped less what was unwrapped |
| `WanetIssue.WanetForNothing` | src/state.rs:1476-1491 | Counterexample family: wherever WANET is not yet a token, an eligible account creates it with any supply that fits, unwraps it and owns that many more ants; nobody else changes and the registered supply stays |
| `Anrc20.TransferSucceedsIff` | src/state.rs:2067-2132 | In every state whose registry is consistent a transfer succeeds if and only if the arguments are proper, the sender exists, holds the amount in its account and in the registry, and the recipient's sum fits 64 bits |
| `TokenTerms.MintTerms` | src/state.rs:2000-2065 | In a consistent registry a mint succeeds if and only if the amount is positive, the caller owns the mintable token, and supply and the account of the recipient have room; what it changes is stated |
| `TokenTerms.CreateTerms` | src/state.rs:1931-1998 | When a token is created, and what both ledgers then hold |
| `TokenTerms.TransferTerms` | src/state.rs:2067-2132 | A transfer moves the amount in both ledgers and changes nothing else |
| `Anrc20.TransferErrIsClean` | src/state.rs:2067-2132 | An Err of a transfer leaves the market as it was if and only if the arguments are refused, the sender is missing or it holds too few units |
| `Anrc20.MintErrIsClean` | src/state.rs:2000-2065 | An Err of a mint leaves the market as it was if and only if it is not the account ledger that refuses |
| `Anrc20.ErrsKeepRegistryOk` | src/state.rs:2000-2132 | Whatever a transfer or a mint returns, registered balances still sum to the supply |
| `Anrc20.KeptOnOk` | src/state.rs:2000-2132 | On Ok the state left behind is the specified one |
| `Anrc20.StepKeptOnErr` | src/state.rs:1931-2132 | An Err of a creation changes nothing, one of a mint no account and no pool, one of a transfer no supply |
| `Anrc20.MirroredTransfersSucceed` | src/state.rs:2067-2132 | While both ledgers agree a transfer succeeds if and only if the sender holds the amount: the registry's own check and both overflow checks never fire |
| `Anrc20.TokenRunsMirror` | src/state.rs:1931-2132 | Token operations alone keep both ledgers equal for every holder |
| `Anrc20.BoughtUnitsDoNotTransfer` | src/state.rs:2108-2111 | Counterexample family: a buyer who owned at least what the registry lists owns more after a purchase, and the transfer of all it owns is refused |
| `Anrc20.BuyerMeetsRefusal` | src/state.rs:1931-2132 | From an empty registry: a token is issued, a pool opened, 500 units bought, and their transfer refused by the registry |
| `MigratedTokens.MigrationMirrorsIff` | src/state.rs:1232-1304 | A migration keeps the two ledgers of a token equal if and only if the legacy account held none of it |
| `MigratedTokens.MigratedUnitsDoNotTransfer` | src/state.rs:2108-2111 | From equal ledgers, the new address can transfer after a migration exactly the amounts it owned before it, recipient's room permitting, and the legacy address nothing; the moved units stay where they are |
| `DexMath.SplittingNeverHelps` | src/dex.rs:141-168 | For any reserves and fee, swapping a then b yields in total at most one swap of a + b, with every floor as in the code and the whole first input added in between |
| `DexTerms.QuoteTerms` | src/dex.rs:145-168 | Every quote charges the fee in basis points of the input rounded up, at most 300, and pays the constant-product share of the rest rounded down |
| `DexTerms.QuoteSucceedsIff` | src/dex.rs:122-170 | A quote is given if and only if reserves, input and both rounded results are positive, the fee is at most 300 and the three intermediate values fit 128 bits |
| `DexTerms.QuoteErrors` | src/dex.rs:122-170 | An empty reserve, no input and a fee above 300 have their own errors, in this order; the other two need a fee within the limit |
| `DexTerms.UsualQuote` | src/dex.rs:145-168 | In numbers: with a million on either side and 30 basis points, 10000 buy 9871 and pay a fee of 30 |
| `DexMath.SwapKeepsProduct` | src/dex.rs:128-171 | A quoted output is positive and strictly below the output reserve, and paying it never lowers the product of the reserves |
| `DexMath.IntegerSqrt` | src/dex.rs:190-202 | Newton's loop terminates at the exact floor square root for every value below 2^128 - 1 without intermediate overflow |
| `DexMath.InitialLpBounds` | src/dex.rs:112-126 | For 64-bit deposits the product is in range, initial units lie between the deposits and their square never exceeds the product |
| `DexMath.FloorSqrtUnique` | src/dex.rs:190-202 | A number has one floor square root |
| `DexMath.NewtonFits` | src/dex.rs:190-202 | The sum inside a Newton step exceeds the value by at most one |
| `Dex.DexRunKeeps` | src/state.rs:1396-1832 | Over any run of Ok create, add, swap, wrap and unwrap steps reserves stay at least one, positions sum to the pool total, products never fall, and the ANET total and every token total are conserved |
| `Dex.SwapNeverViolatesInvariant` | src/state.rs:1802-1810 | In such states the swap's own invariant check never fires |
| `Dex.NoFreeLunch` | src/state.rs:1685-1832 | A run that leaves one reserve of a pool no higher leaves the other no lower |
| `Dex.AdditionKeepsValuePerUnit` | src/state.rs:1519-1564 | An addition never lowers ANET per unit and leaves the token side short by less than two units in total |
| `Dex.PositionWithinTotal` | src/state.rs:1560-1564 | A position never exceeds the checked total, so the unchecked addition to it cannot overflow |
| `Dex.SwapKeeps` | src/state.rs:1685-1832 | An Ok swap keeps the pool invariant and both totals |
| `DexTerms.SwapSucceedsIff` | src/state.rs:1685-1832 | In sound pools a trade succeeds if and only if it is in time, proper, quoted at least the least output, the trader may trade, can pay and hold, and reserves and products fit 128 bits |
| `DexTerms.SwapTerms` | src/state.rs:1685-1832 | It pays what is quoted for its direction, moves the whole input into the pool, fee included, and changes nothing else |
| `DexTerms.CreateTerms` | src/state.rs:1396-1453 | When a pool is created, with 30 basis points unless a fee of at most 300 is named, and what it then holds |
| `DexTerms.AddTerms` | src/state.rs:1493-1584 | When a deposit is accepted; it mints the share of the units that its ANET is of the reserve, rounded down and not less |
| `DexTerms.NoPoolNoDeposit` | src/state.rs:1493-1538 | Without a pool, or with an empty ANET reserve, nothing is deposited |
| `DexTerms.WrapTerms` | src/state.rs:1455-1474 | When ANET is wrapped, and all that changes |
| `DexTerms.UnwrapTerms` | src/state.rs:1476-1491 | When it is unwrapped, and all that changes |
| `DexTerms.SymbolIs` | src/dex.rs:86-106 | A symbol has 1 to 16 capital letters, digits, underscores or hyphens and is not ANET |
| `Dex.AddKeeps` | src/state.rs:1493-1584 | An Ok addition keeps them as well |
| `DexErrors.ErrIsCleanUnlessFirstDebitPaid` | src/state.rs:1744-1775 | An Err leaves every account as it was if and only if the call never gets to the account or the wallet cannot pay the first debit |
| `ActivatedSupply.ActivatedNeverExceedsBalance` | src/state.rs:689-705 | Over any run of syncs, blocks, funding, top-ups, trades, migrations and burns from a state in which no account has more activated than owned, whatever these calls return: it stays so throughout if and only if each clawback that fails over its total stops at a wallet that owns at least twice what it has activated; then the next clawback never underflows |
| `ActivatedSupply.StoppedKeepsActivatedOkIff` | src/state.rs:689-702 | The balance is reduced before the total is checked: a clawback stopped there keeps the invariant if and only if the wallet owned at least twice its activated remainder |
| `ActivatedSupply.SmallSupplySpares` | src/state.rs:689-705 | A supply of 64 bits spares every sync |
| `ActivatedSupply.TwoLargeWalletsBreakClawback` | src/state.rs:689-705 | Counterexample: with two unlisted wallets of 2^63 ants the clawback leaves the second without ants and with its activated remainder, and every later clawback underflows |
| `Boot.LargeGenesisBreaksClawback` | src/state.rs:320-334 | Genesis rows do give such wallets |
| `ActivatedSupply.ClawbackNeverFails` | src/state.rs:689-705 | In such a state with a supply of 64 bits a clawback always succeeds, its total included |
| `ActivatedSupply.SyncsCreditHighWatermark` | src/state.rs:644-687 | Across any series of syncs, with blocks, funding, trades and burns in between and whatever these calls return, a wallet with enough sessions is credited by the syncs exactly the rise of its watermark, which never exceeds its highest snapshot and reaches it when every row loop ends |
| `ActivatedSupply.BurnDestroysExactlyAmount` | src/state.rs:1131-1136 | A burn takes the amount and the part of its fee that finds no account out of the supply; exactly the amount if and only if all of the fee finds one |
| `ActivatedSupply.ThreeSeatsLoseAnAnt` | src/state.rs:1185-1222 | Counterexample: with three seats and no reserve account a burn of 2000 ants destroys 2001 |
| `ActivatedSupply.MigrationKeepsSupply` | src/state.rs:1232-1312 | A migration moves all ANET and every asset, creating and losing nothing |
| `ActivatedSupply.MigrationErrIsClean` | src/state.rs:1232-1312 | An Err of a migration leaves the state as it was if and only if the call is refused at once or the legacy account holds nothing |
| `ActivatedSupply.TopUpsKeepActivatedOk` | src/state.rs:2473-2491 | Replay top-ups keep the activated remainder within the balance |
| `CanonicalJson.ParseAfterRender` | src/transaction.rs:563-603 | The printed text of any value parses back to that value, strings escaped as in section 7 of RFC 8259 |
| `CanonicalJson.PrintIffSame` | src/transaction.rs:563-603 | Two values print alike if and only if they are equal as JSON, objects compared as maps: key order and superseded duplicates do not show |
| `CanonicalJson.ParseAfterPrint` | src/transaction.rs:563-603 | Parsing the canonical text gives back the printed value |
| `CanonicalJson.EscapeCharIs` | src/transaction.rs:572-572 | Exactly seven characters are escaped by one letter or themselves, the other control characters by four lower-case hexadecimal digits, and nothing else |
| `CanonicalJson.CanonicalJsonString` | src/transaction.rs:563-603 | The recursive printer with its loops produces the canonical text |
| `CanonicalJson.ArrayString` | src/transaction.rs:573-583 | The array loop places brackets and commas |
| `CanonicalJson.SortedByKey` | src/transaction.rs:585-588 | The object's entries are put in key order |
| `CanonicalJson.ObjectString` | src/transaction.rs:584-602 | The object loop prints the sorted entries |
| `CanonicalJson.SortedMembers` | src/transaction.rs:585-588 | Sorting keeps exactly the last entry of each key, in strictly rising key order |
| `Preimages.TxPreimageInjective` | src/transaction.rs:347-372 | For valid wallets and one chain id, transaction preimages coincide if and only if all normalised fields and the payload do, even when the type contains the separator |
| `Preimages.ActionPreimageInjective` | src/transaction.rs:374-393 | The same for action preimages, again for any action type |
| `Preimages.ProofPreimageInjective` | src/transaction.rs:395-413 | The same for proof preimages, whatever the proof hash holds |
| `Preimages.PreimagesNeverCoincide` | src/transaction.rs:347-413 | Texts of different kinds never coincide |
| `SigningLayout.TxReadsBack` | src/transaction.rs:347-373 | Reading the text of a transaction on its own chain, from the right and by quote parity, finds v1, type, sender, recipient, amount, fee, nonce and time in this order, and a payload that parses to the signed value, whatever separators type and payload hold |
| `SigningLayout.ActionReadsBack` | src/transaction.rs:375-394 | The same for an action: action-v1, type, wallet, nonce, time, payload |
| `SigningLayout.ProofReadsBack` | src/transaction.rs:396-413 | The same for a mining proof: proof-v1, miner, nonce, time, proof hash, difficulty |
| `Preimages.RenderSteady` | src/transaction.rs:563-603 | Reading canonical JSON returns to outside any string, and a separator in it lies inside one |
| `Preimages.SplitPayload` | src/transaction.rs:347-372 | Quote parity fixes where the payload starts |
| `ChainStore.StoredChainSurvives` | src/db.rs:1539-1563 | After any series of stores, repeated hashes and crashes between the two statements, the tables hold exactly the blocks whose store completed, in order |
| `ChainStore.InterruptedStoreCannotRepeat` | src/db.rs:1539-1563 | A store that died between its statements cannot be repeated with the same block: the insert fails and the tip stays |
| `ChainStore.HeldHashesDistinct` | src/db.rs:1506-1537 | All hashes of a held chain differ, so the walk visits no row twice |
| `ChainStore.HeldChainUnique` | src/db.rs:1506-1537 | The tables determine the chain they hold |
| `ChainStore.HeldChainLeads` | src/db.rs:1506-1537 | A held chain is what the walk from the tip visits, and the walk ends at GENESIS |
| `ChainStore.ChainDb.StoreBlockAndUpdateTip` | src/db.rs:1539-1563 | Inserts and moves the tip exactly when the hash is new |
| `ChainStore.ChainDb.LoadChainBlocks` | src/db.rs:1506-1537 | The backward walk terminates and returns the visited blocks in order, or fails exactly when it meets a missing row |
| `ChainStore.ChainDb.EnsureChainInitialized` | src/db.rs:1565-1633 | An existing tip is only checked; an empty database receives genesis; a genesis row left by an interrupted attempt makes every later attempt fail |
| `Consensus.WindowsPartition` | src/consensus.rs:11-31 | Windows contain their instant, have the epoch's length, and any two are equal or disjoint, negative times included |
| `Consensus.ProducedChainValidates` | src/state.rs:2505-2553 | Under a non-decreasing clock, and whatever the queues hold, the chain produced up to the first failing seal passes validation if and only if its first sealed window, if any, starts at or after the end of genesis |
| `Consensus.FirstActIsSecondBlock` | src/consensus.rs:33-49 | From a lone genesis the loop either never seals, stops at its first attempt, or seals that window as its second block |
| `Consensus.UnalignedGenesisOverlaps` | src/state.rs:2540-2547 | Counterexample: a genesis that ends inside the first window gives a chain validation rejects as soon as that window can be sealed |
| `Consensus.ValidateBlockSequence` | src/state.rs:2505-2569 | The validation loop accepts exactly the valid sequences, hashed in the current format or, unless refused, in one of the three older ones |
| `Consensus.RunConsensus` | src/consensus.rs:33-49 | The polling loop produces the specified chain and ends at the first seal that fails |
| `Consensus.TickSeals` | src/state.rs:2203-2208 | One poll, sealing or failing, keeps the chain linked, its windows disjoint and in order |
| `EpochTerms.WindowIs` | src/consensus.rs:11-31 | The window of an instant is the multiple of the epoch length, counted from the Unix epoch, that holds it; zero seconds count as one |
| `EpochTerms.TickIs` | src/consensus.rs:33-49 | One poll does nothing while stopped, without work or when the last block has this window; otherwise it appends the block of this window that follows the chain, or stops if the queue does not build or the block is not stored |
| `EpochTerms.ProducedHeights` | src/state.rs:2215-2219 | In whatever chain the loop produces, block i has the height of genesis plus i while that fits 64 bits |
| `EpochTerms.ValidSequenceIs` | src/state.rs:2505-2569 | The check at start-up passes if and only if every block is proper, has the link of the block before or GENESIS, and starts no earlier than that one ends; each format of hash is named |
| `Validators.ActiveSetIsTopRanked` | src/state.rs:102-161 | The active set is the top 2100 of the unique ranking of organic accounts, followed by ranked bootstrap seats exactly when fewer than 21 are organic |
| `SeatOrder.SeatsByActivity` | src/state.rs:101-138 | No two seats are the same, organic accounts sit before bootstrap ones, and among either an earlier seat has more sessions, or as many and the address that is smaller at the first difference |
| `SeatOrder.SeatsAreFilled` | src/state.rs:66-138 | Everybody in line is seated up to 2100 seats and nobody else; with fewer than 21 organic accounts of at least 1000 sessions the bootstrap ones are in line too |
| `SeatOrder.PassedOver` | src/state.rs:101-138 | Whoever is in line without a seat comes after everybody seated: bootstrap after organic, then fewer sessions, then the larger address |
| `Validators.ActiveSetIsDeterministic` | src/state.rs:102-161 | It depends on neither map iteration order nor order or repetition in the bootstrap list |
| `Validators.EmptyListGivesPlainRule` | src/state.rs:50-161 | With an empty bootstrap list it is the plain session rule |
| `Validators.RankingUnique` | src/state.rs:50-67 | There is exactly one strict ranking of the qualified accounts |
| `Validators.SharesSumUp` | src/state.rs:531-561 | With positive weight the voting shares sum to at most 10000 and more than 10000 minus the seat count |
| `Validators.ShareIs` | src/state.rs:531-561 | A share is the ten-thousandfold part of the sessions, rounded down |
| `BridgeDedup.OneCreditPerHash` | src/state.rs:2338-2357 | Over any interleaving of clean requests, transfers, seals that succeed or fail, crashes before or after the store, and restarts, the durable chain holds at most one treasury credit per EVM hash |
| `BridgeDedup.KeySurvivesRestart` | src/rpc.rs:1823-1835 | The handler's key is the hash a restart rebuilds if and only if the request's hash has no surrounding white space; in any case the memo holds the key of the trimmed hash |
| `BridgeDedup.RestartRemembersCredits` | src/state.rs:2338-2372 | Every sealed credit's hash and recipient are in the rebuilt sets |
| `BridgeMemory.RebuiltSetsAreLiveIff` | src/state.rs:2338-2372 | Over any run of clean requests, transfers, seals, crashes and restarts, the set of hashes, or of recipients, that a restart would rebuild is the live one if and only if every credit still queued or lost in a failed seal is recorded on the chain and everything that memos of signed transfers recorded is known |
| `BridgeMemory.LookalikeMemoActsAfterRestart` | src/state.rs:2338-2372 | A signed transfer with a credit's memo acts as one after a restart: its hash counts as processed and its recipient as bridge-funded |
| `BridgeMemory.LostCreditWaitsForRestart` | src/rpc.rs:1823-1863 | A credit lost in a failed seal stays known, so its retry is answered without a credit; after a restart the retry is credited if and only if no memo on the chain records it |
| `BridgeDedup.PaddedHashCreditsTwice` | src/rpc.rs:1823-1863 | Counterexample family: on any node, for every hash with surrounding white space neither of whose two keys is processed, the hash and its trimmed copy are both credited under one memo |
| `BridgeDedup.EventKeepsDeduplicated` | src/rpc.rs:1822-1863 | Every event, failed seals included, keeps the running node aware of all credits, sealed and queued |
| `BridgeDedup.CollectProcessedBridgeHashes` | src/state.rs:2338-2357 | The collecting loop yields every recorded hash |
| `BridgeDedup.CollectBridgeFundedAccounts` | src/state.rs:2359-2372 | The collecting loop yields every recorded recipient |
| `BridgeApi.CreditEvmSwap` | src/rpc.rs:1822-1863 | Look up, queue and insert under one lock is one protocol step; a failure changes nothing |
| `BridgeApi.Restart` | src/state.rs:2316-2401 | Replay, nonce rebuild and both collecting loops together are the protocol's restart |
| `PayoutExecutor.AtMostOneTransfer` | scripts/payout-automation/payout-executor/server.js:202-278 | Over any run of requests in any mix of live and dry-run modes, a request id or swap reference causes at most one transfer beyond those sent but never recorded |
| `PayoutExecutor.LostTransferRepeats` | scripts/payout-automation/payout-executor/server.js:250-278 | The bound is met: a transfer sent but not recorded is made again on retry |
| `PayoutExecutor.RepetitionsGetTheSameAnswer` | scripts/payout-automation/payout-executor/server.js:202-217 | Once a payout was answered with a hash, every repetition gets the same hash, marked duplicate, and changes nothing, whatever happens in between, if and only if the first answer left a record under its request id, so did not come from its swap reference alone |
| `PayoutExecutor.BorrowedAnswerIsReplaced` | scripts/payout-automation/payout-executor/server.js:202-217 | Counterexample: an answer taken from the swap reference alone is replaced once the request id is paid for without that reference |
| `PayoutExecutor.AnswersAreBacked` | scripts/payout-automation/payout-executor/server.js:202-278 | A hash answered by a live executor belongs to a transfer for that request id or swap reference |
| `PayoutExecutor.Server.HandleExecute` | scripts/payout-automation/payout-executor/server.js:171-278 | The handler in place is the specified atomic step |
| `PayoutWorker.Worker.TakeTurn` | scripts/payout-automation/worker.js:464-597 | One turn of the item loop: all checks in order, the executor call and the bookkeeping |
| `PayoutWorker.Worker.RunItems` | scripts/payout-automation/worker.js:464-597 | The item loop is the fold of its turns |
| `PayoutWorker.Send` | scripts/payout-automation/worker.js:314-354 | An executor call whose reply is lost may still have had its effect |
| `PayoutTerms.JudgeIs` | scripts/payout-automation/worker.js:432-507 | A payout is attempted if and only if its fields are given, neither key was paid, the holder is eligible, the reserve ratio is met and both caps leave room; otherwise the first failing check is noted |
| `PayoutTerms.BlockedTurn` | scripts/payout-automation/worker.js:432-507 | An item that may not be paid changes neither books nor executor, gets the status of its note and is counted once under it |
| `PayoutTerms.PayableTurn` | scripts/payout-automation/worker.js:509-560 | An item that may be paid asks once; with a hash it is paid and booked under request id, swap reference, hour and wallet of the day, without one it is a retry closer to failing |
| `PayoutTerms.CyclePaysItsQueue` | scripts/payout-automation/worker.js:325-344 | Every transfer a cycle makes goes to the destination, and has the amount and keys, of a pending item of its queue |
| `PayoutTerms.PaidWasPayable` | scripts/payout-automation/worker.js:470-507 | An item newly marked paid was payable at its turn: eligible holder, reserve met, room under both caps |
| `PayoutTerms.ReplyIs` | scripts/payout-automation/worker.js:314-354 | What is sent to the executor, and what of its answer arrives |
| `PayoutTerms.WindowOpens` | scripts/payout-automation/worker.js:103-110 | After 3600000 ms a new hour begins with nothing paid; before, nothing changes |
| `PayoutRuns.PayoutsHappenOnce` | scripts/payout-automation/worker.js:394-648 | Whatever cycles crash, whatever replies get lost and whoever else calls the executor, each request id and non-empty swap reference causes at most one transfer beyond unrecorded ones, and every live paid item has a transfer behind it |
| `PayoutRuns.RunsKeepCaps` | scripts/payout-automation/worker.js:525-540 | With fixed caps and no crash, no cycle of a run takes the booked hourly total or a wallet's booked daily total above its cap |
| `PayoutCaps.HourlyOutgo` | scripts/payout-automation/worker.js:509-540 | Within one hour, over any run with crashes and other clients, what leaves the treasury is what was booked plus what was sent unbooked minus what was booked from answers on file; so at most what the cap left plus the unbooked: lost replies and hashes, cycles that died, and other clients |
| `PayoutCaps.CycleSends` | scripts/payout-automation/worker.js:314-354 | What a cycle sends is what it books, plus what it sends without learning the hash, minus what it books without sending |
| `PayoutCaps.LostReplyDoublesHour` | scripts/payout-automation/worker.js:525-540 | Counterexample family: of two payouts that each use the whole cap the second is made as well when the reply to the first is lost |
| `PayoutRuns.BooksMatchPayouts` | scripts/payout-automation/worker.js:589-596 | A cycle's totals grow by exactly what it marked paid, overall and per wallet and day |
| `PayoutRuns.BooksSurviveUnlessWritesSplit` | scripts/payout-automation/worker.js:622-623 | If a cycle dies between its two writes, the hourly total and each wallet's daily total match the stored queue if and only if it paid nothing towards them |
| `PayoutRuns.ItemsMoveOnlyFromPending` | scripts/payout-automation/worker.js:464-597 | Only pending items change, only in their outcome fields, and retries grow by at most one |
| `PayoutRuns.CountersAccountForQueue` | scripts/payout-automation/worker.js:464-597 | Each pending item is counted once by what stopped it and once by where it ended |
| `WorkerRuns.RunWorker` | scripts/payout-automation/worker.js:394-648 | One run of the worker over its two files, dying where it may, is the cycle the results on runs speak of |
| `WorkerRuns.HappenAll` | scripts/payout-automation/worker.js:394-648 | So is every series of runs, hand-made items and requests of other clients |
| `PayoutIngest.IngestAddsOnlyNew` | scripts/payout-automation/worker.js:212-276 | Ingestion only appends pending items whose request id and swap reference occur nowhere earlier, so a queue without repeats stays without |
| `PayoutIngest.IngestOneIs` | scripts/payout-automation/worker.js:239-270 | When a record is taken, and as what item, made-up keys included |
| `PayoutIngest.IngestTwiceAddsNothing` | scripts/payout-automation/worker.js:212-276 | Ingesting any batch again, at any later time, adds nothing if and only if none of its records without a request id is still unknown; records with one are never taken twice |
| `PayoutIngest.SecondSwapWaitsForNextPass` | scripts/payout-automation/worker.js:234-248 | Counterexample: of two swaps of one wallet without request ids a pass takes the first, and the next pass the second |
| `PayoutIngest.AutoIngestQueue` | scripts/payout-automation/worker.js:212-276 | The loop with its two running sets equals the specification and counts added and skipped records |
| `PayoutIngest.BuildExistingRequestIds` | scripts/payout-automation/worker.js:188-196 | The set holds exactly the queued and processed request ids |
| `PayoutIngest.BuildExistingSwapRefs` | scripts/payout-automation/worker.js:198-206 | The set holds exactly the queued and processed swap references |
| `Amounts.ParseAfterFormat` | src/explorer_assets/explorer.js:23-43 | What the form prints it reads back for every amount up to 2^53 - 1, and it refuses every larger one |
| `Amounts.ParseAnetIs` | src/explorer_assets/explorer.js:29-43 | Digits with at most eight more after a full stop are read in their places, up to 2^53 - 1 |
| `Amounts.OtherShapesAreRefused` | src/explorer_assets/explorer.js:29-43 | Nothing else is read |
| `Amounts.FormatHasNoSpareZero` | src/explorer_assets/explorer.js:23-27 | What is printed has no zero at the end of its fraction |
| `Amounts.FormatInteger` | src/rpc.rs:6925-6937 | The push loop prints the decimal digits with a comma at exactly every fourth place from the end |
| `Amounts.FormatAnetDisplay` | src/rpc.rs:6939-6955 | With the commas removed the display form is the input form, and parses back |
| `Text.WalletIsNormal` | src/transaction.rs:716-721 | A valid wallet is already trimmed and upper-case and contains no separator |
| `Text.NormalisedOnce` | src/rpc.rs:1822-1822 | Normalising a recipient in the handler and again in the node is normalising it once |
| `Text.TrimIs` | src/transaction.rs:361-369 | Trimming takes white space off both ends, all of it and nothing else; white space is the Unicode property (`Text.WhitespaceIs`) |
| `Text.FoldedAt` | src/transaction.rs:361-363 | Case folding moves the 26 letters by 32 code points, character by character, and leaves everything else |
| `Text.DecimalHasNoLeadingZero` | src/transaction.rs:364-367 | Numbers are written without leading zeros, negative ones with one sign |
| `Text.ValidWalletIs` | src/transaction.rs:716-721 | A wallet is the prefix ANET and 36 upper-case hexadecimal digits |
| `Ordering.LexLtIs` | src/transaction.rs:585-588 | One string is before another exactly when it is a proper prefix of it or has the smaller character at the first difference |
| `Ordering.SortIsStable` | src/state.rs:2417-2425 | Sorting keeps the order of elements that tie |

## Left out

- Err results of a replay at start-up: no node comes of them, so what they leave is not described.
- Cryptography, transaction ids and the four block-hash formats: opaque functions, as above.
- Price impact, percentages and JSON numbers with a fraction or exponent: floating point.
- `allow_ineligible_wallet_test_mode` and other environment switches: taken as off.
- NodeLoops.BuildBlock: the unchecked fee sum (`src/block.rs:120`) is followed only while it fits 64 bits, an error beyond; from a sound state with a 64-bit supply it always fits (`Runs.SealSucceeds`).
- NodeLoops.MintedUnits: an empty ANET reserve is an error here where the code would divide by zero; no pool of `Dex.DexRunKeeps` has one.
- Block fields without ledger effect (events, DEX and token snapshots, proofs, votes, roots, activated supply label) and the height-label warnings.
- Runs.RunIsSound: clawback, DEX debits, migrations and burns are not steps of these runs, because they do not look at the queue and pending debits need not stay covered after them; `OffBlock` has them, and `SpentQueue` what they do to a queue.
- `record_pi_settlement`, admin mints and the bootstrap helpers: they create value or break the queue's invariants by design.
- Heartbeats, mining proofs, app-activity events and operations reports: metadata.
- Calendar conversion fallbacks and saturation in the window computation: instants are integers in nanoseconds.
- Full Unicode case mapping: wallets, hashes and symbols are ASCII where the code accepts them, and token symbols are taken as already normalised in `Dex` and `Anrc20`.
- HTTP, rendering, caching, SQL other than the two chain tables.
- Overlapping worker cycles, and changes of the payout configuration during a run: one cycle at a time, one configuration per run.
- JavaScript number rounding, missing fields read as numbers, and property names every JavaScript object inherits: amounts are whole micro-USDC, records are maps.
- ChainDb.LoadChainBlocks: asks for tables whose rows form no cycle, because the code's walk would not end on one; `ChainStore.StoredChainSurvives` shows that stores never make one.
- LiveReplay.RestartMatchesLive: runs in which a built block fails to apply or to be stored, and activation syncs, are the subject of `OffBlock.RestartForgetsOffBlock` for balances.
- WanetIssue.TokenRunsMakeAnet: operations that return Ok; what the others leave is exact in `Anrc20.StepKept` and `DexErrors`, and not summed up over runs.
- OffBlock.OnlyOffChainStepsGain: blocks that are built but not appended also keep what they applied; then the gain includes that part.
- Snapshot.SnapshotReload: histories that are solvent from the genesis itself, so without bridge credits, whose funding is not in it; `OffBlock.RestartForgetsOffBlock` has those for any genesis file.
- Replay.ReplayAgreesWithSimulation: the bound on each address's total is a hypothesis; it rules out the 64-bit errors the code checks for, here and in `Replay.ReplayedBalance`, `OffBlock.RestartForgetsOffBlock` and `PoolRestart.RestartDoublesPooledAnet`.
- PoolRestart.RestartDoublesPooledAnet: bridge credits, syncs, burns, migrations, and trades and token calls that fail are not in its runs; `PoolRestart.RestartedAnet` has them, with what they did to the total as a term.
- PayoutRuns.RunsKeepCaps: needs crash-free cycles; `PayoutRuns.BooksSurviveUnlessWritesSplit` says what a crash between the two writes forgets, and `PayoutCaps.HourlyOutgo` what is sent.
- PayoutCaps.HourlyOutgo: the hourly cap alone; of a wallet's daily cap only the booked total is bounded.
