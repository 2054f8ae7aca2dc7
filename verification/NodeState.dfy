/** The node's mutable state and the operations that change it in place
    (src/state.rs:633-734, 824-944, 1050-1124, 1131-1312, 2210-2275). Each method is proved
    against the function of `Mempool`, `Activation` or `ActivatedSupply` that the results
    about whole runs are stated over. */
module NodeState {
  import opened Wrappers
  import opened Ledger
  import opened Mempool
  import opened Sums
  import opened Activation
  import opened NodeLoops
  import ActivatedSupply
  import Anrc20
  import Dex
  import DexErrors
  import DexMath
  import LedgerLoops
  import Text
  import Validators

  /** The height a swap's deadline is held against. */
  function LastHeight(blocks: seq<Block>): u64 {
    if blocks == [] then 0 else blocks[|blocks| - 1].body.height
  }

  class NodeState {
    const chainId: string
    const hashOf: Body -> string
    var bootstrapValidators: seq<Address>
    var pendingActivated: u64
    var dexPools: map<string, Dex.Pool>
    var tokenRegistry: map<string, Anrc20.Token>
    var accounts: Accounts
    var mempool: seq<Tx>
    var accountNonces: map<Address, u64>
    var blocks: seq<Block>
    var eligibleMiners: seq<Address>
    var bridgeFunded: set<Address>
    var processedHashes: set<string>

    /** A node over what a start-up has loaded and rebuilt; nothing is pending yet. */
    constructor (id: string, hash: Body -> string, loaded: Node, pools: map<string, Dex.Pool>,
                 registry: map<string, Anrc20.Token>, processed: set<string>)
      ensures View() == loaded.(mempool := [], chainId := id) && hashOf == hash
      ensures DexView().pools == pools && tokenRegistry == registry && processedHashes == processed
      ensures bootstrapValidators == [] && pendingActivated == 0
    {
      chainId, hashOf, bootstrapValidators, pendingActivated := id, hash, [], 0;
      accounts, mempool, accountNonces, blocks := loaded.accounts, [], loaded.nonces, loaded.blocks;
      eligibleMiners, bridgeFunded, dexPools, tokenRegistry := loaded.miners, loaded.funded, pools, registry;
      processedHashes := processed;
    }

    function View(): Node
      reads this
    {
      Node(accounts, mempool, accountNonces, blocks, eligibleMiners, bridgeFunded, chainId)
    }

    /** The checks on the two parties. */
    method CheckParties(tx: Tx) returns (problem: Option<NodeError>)
      ensures problem ==
        if tx.from !in accounts then Some(UnknownSender)
        else if !Eligible(View(), tx.from) then Some(SenderNotEligible)
        else if tx.to !in accounts then Some(UnknownRecipient)
        else if !Eligible(View(), tx.to) then Some(RecipientNotEligible)
        else None
    {
      if tx.from !in accounts {
        return Some(UnknownSender);
      }
      if tx.from !in bridgeFunded && accounts[tx.from].sessions < MIN_SESSIONS_FOR_ANET {
        return Some(SenderNotEligible);
      }
      if tx.to !in accounts {
        return Some(UnknownRecipient);
      }
      if tx.to !in bridgeFunded && accounts[tx.to].sessions < MIN_SESSIONS_FOR_ANET {
        return Some(RecipientNotEligible);
      }
      problem := None;
    }

    /** The checks on the nonce. */
    method CheckNonce(tx: Tx) returns (problem: Option<NodeError>)
      ensures problem ==
        var committed := Nonce(accountNonces, tx.from);
        if tx.nonce <= committed then Some(StaleNonce)
        else if NonceQueued(mempool, tx.from, tx.nonce) then Some(DuplicateNonce)
        else if !LeastFreeNonce(mempool, tx.from, committed, tx.nonce) then Some(WrongNonce)
        else None
    {
      var committed := Nonce(accountNonces, tx.from);
      if tx.nonce <= committed {
        return Some(StaleNonce);
      }
      var nonces := CollectNonces(mempool, tx.from);
      if tx.nonce in nonces {
        return Some(DuplicateNonce);
      }
      var expected := NextNonce(mempool, tx.from, committed, nonces, tx.nonce);
      if tx.nonce != expected {
        if LeastFreeNonce(mempool, tx.from, committed, tx.nonce) {
          LeastFreeIsUnique(mempool, tx.from, committed, tx.nonce, expected);
        }
        return Some(WrongNonce);
      }
      problem := None;
    }

    /** The checks on the money. */
    method CheckFunds(tx: Tx) returns (problem: Option<NodeError>)
      requires tx.from in accounts
      ensures problem ==
        if Pending(mempool, tx.from) > U64_MAX then Some(PendingOverflow)
        else if tx.Debit() > U64_MAX then Some(TotalDebitOverflow)
        else if Balance(accounts, tx.from) < Pending(mempool, tx.from) + tx.Debit() then Some(InsufficientBalance)
        else None
    {
      var outgoing := PendingOutgoing(mempool, tx.from);
      if outgoing.None? {
        return Some(PendingOverflow);
      }
      if tx.amount + tx.fee > U64_MAX {
        return Some(TotalDebitOverflow);
      }
      var sender := accounts[tx.from];
      if sender.ants < outgoing.value || sender.ants - outgoing.value < tx.amount + tx.fee {
        return Some(InsufficientBalance);
      }
      problem := None;
    }

    method FindProblem(tx: Tx) returns (problem: Option<NodeError>)
      ensures problem == Rejection(View(), tx)
    {
      if !ValidForChain(tx, chainId) {
        return Some(InvalidTransaction);
      }
      if |mempool| >= MAX_MEMPOOL_TRANSACTIONS {
        return Some(MempoolFull);
      }
      problem := CheckParties(tx);
      if problem.Some? {
        return;
      }
      problem := CheckNonce(tx);
      if problem.Some? {
        return;
      }
      var known := HasId(mempool, tx.id);
      if known {
        return Some(DuplicateTransaction);
      }
      problem := CheckFunds(tx);
    }

    /** `queue_transaction`: a refusal changes nothing. */
    method QueueTransaction(tx: Tx) returns (r: Result<string, NodeError>)
      modifies `mempool
      ensures r == if Rejection(old(View()), tx).Some? then Failure(Rejection(old(View()), tx).value)
          else Success(tx.id)
      ensures View() == if r.Success? then Mempool.QueueTransaction(old(View()), tx).value else old(View())
    {
      var problem := FindProblem(tx);
      if problem.Some? {
        return Failure(problem.value);
      }
      mempool := mempool + [tx];
      return Success(tx.id);
    }

    /** The credit, for a normalised recipient and hash. */
    method QueueNormalCredit(to: Address, amount: u64, hash: string, now: int, id: string)
      returns (r: Result<u64, NodeError>)
      modifies `accounts, `mempool, `bridgeFunded
      ensures
        var next := Mempool.QueueBridgeCredit(old(View()), to, amount, hash, now, id);
        && View() == (if next.Success? then next.value else old(View()))
        && r == if next.Failure? then Failure(next.error) else Success(SatAdd(Balance(old(accounts), to), amount))
    {
      if amount == 0 {
        return Failure(ZeroCredit);
      }
      if !Text.ValidWallet(to) || to == TREASURY {
        return Failure(InvalidRecipient);
      }
      if amount + MIN_FEE_ANTS > U64_MAX {
        return Failure(TotalDebitOverflow);
      }
      var treasury := Get(accounts, TREASURY);
      if treasury.ants + amount + MIN_FEE_ANTS > U64_MAX {
        return Failure(TreasuryOverflow);
      }
      accounts := accounts[TREASURY := treasury.(ants := treasury.ants + amount + MIN_FEE_ANTS)];
      var memo := BRIDGE_CREDIT_MEMO_PREFIX + hash;
      mempool := mempool + [Tx(TREASURY, to, amount, MIN_FEE_ANTS, 0, memo, now, chainId, Legacy, id)];
      bridgeFunded := bridgeFunded + {to};
      return Success(SatAdd(Balance(accounts, to), amount));
    }

    /** `queue_bridge_credit`; `id` stands for the hash of the new transaction. */
    method QueueBridgeCredit(recipient: string, amount: u64, evmTxHash: string, now: int, id: string)
      returns (r: Result<u64, NodeError>)
      modifies `accounts, `mempool, `bridgeFunded
      ensures
        var to, hash := Text.AsciiUpper(Text.Trim(recipient)), Text.AsciiLower(Text.Trim(evmTxHash));
        var next := Mempool.QueueBridgeCredit(old(View()), to, amount, hash, now, id);
        && View() == (if next.Success? then next.value else old(View()))
        && r == if next.Failure? then Failure(next.error) else Success(SatAdd(Balance(old(accounts), to), amount))
    {
      r := QueueNormalCredit(Text.AsciiUpper(Text.Trim(recipient)), amount, Text.AsciiLower(Text.Trim(evmTxHash)),
        now, id);
    }

    /** The second half of `create_block`: apply, commit the nonces, store, append. */
    method CommitBlock(block: Block, stored: bool) returns (problem: Option<NodeError>)
      modifies `accounts, `accountNonces, `blocks
      ensures var applied := Apply(old(accounts), BlockEntries(block));
        && problem == (if applied.Failure? then Some(LedgerFailure(applied.error))
                       else if stored then None
                       else Some(StoreFailed))
        && accounts == Kept(old(accounts), BlockEntries(block))
        && accountNonces == (if applied.Success? then CommitNonces(old(accountNonces), block.body.txs)
            else old(accountNonces))
        && blocks == if problem.None? then old(blocks) + [block] else old(blocks)
    {
      LedgerLoops.KeptAll(accounts, BlockEntries(block));
      var applied, kept := LedgerLoops.ApplyBlock(accounts, block);
      accounts := kept;
      if applied.Failure? {
        return Some(LedgerFailure(applied.error));
      }
      accountNonces := CommitAll(accountNonces, block.body.txs);
      if !stored {
        return Some(StoreFailed);
      }
      blocks := blocks + [block];
      problem := None;
    }

    /** `create_block`. Unless the database cannot be read, the queue and the pending activation counter
        are taken before anything can fail. */
    method CreateBlock(start: int, end: int, db: Db) returns (r: Result<Block, NodeError>)
      modifies `accounts, `mempool, `accountNonces, `blocks, `pendingActivated
      ensures View() == SealAttempt(hashOf, old(View()), start, end, db)
      ensures pendingActivated == if db.Unread? then old(pendingActivated) else 0
      ensures
        var sealed := Seal(hashOf, old(View()), start, end);
        && (r.Success? <==> sealed.Success? && db.Stores?)
        && (r.Success? ==> blocks == old(blocks) + [r.value])
        && (r.Failure? ==> r.error == if sealed.Failure? && !db.Unread? then sealed.error else StoreFailed)
    {
      if db.Unread? {
        return Failure(StoreFailed);
      }
      var txs := SortForBlock(mempool);
      mempool, pendingActivated := [], 0;
      r := BuildBlock(hashOf, NextHeight(blocks), start, end, TipHash(blocks), txs, eligibleMiners);
      if r.Failure? {
        return;
      }
      LedgerLoops.KeptAll(accounts, BlockEntries(r.value));
      var problem := CommitBlock(r.value, db.Stores?);
      if problem.Some? {
        r := Failure(problem.value);
      }
    }

    /** The row loop of `sync_activated_accounts`. */
    method CreditRows(rows: seq<Snapshot>) returns (credited: Option<nat>, changed: bool)
      modifies `accounts, `pendingActivated
      ensures credited.Some? <==>
        SyncRows(old(accounts), rows).Success? && old(pendingActivated) + Credited(old(accounts), rows) <= U64_MAX
      ensures accounts == RowsKept(old(accounts), rows, old(pendingActivated))
      ensures credited.Some? ==>
                && SyncRows(old(accounts), rows) == Success(accounts)
                && credited.value == Credited(old(accounts), rows)
                && pendingActivated == old(pendingActivated) + credited.value
                && changed == Raises(old(accounts), rows)
    {
      var total: u64 := 0;
      changed := false;
      for i := 0 to |rows|
        invariant SyncRows(old(accounts), rows) == SyncRows(accounts, rows[i..])
        invariant RowsKept(old(accounts), rows, old(pendingActivated)) ==
            RowsKept(accounts, rows[i..], pendingActivated)
        invariant Credited(old(accounts), rows) == total + Credited(accounts, rows[i..])
        invariant pendingActivated == old(pendingActivated) + total
        invariant Raises(old(accounts), rows) <==> changed || Raises(accounts, rows[i..])
      {
        assert rows[i..][0] == rows[i] && rows[i..][1..] == rows[i + 1..];
        NodeLoops.FirstRow(accounts, rows[i..], pendingActivated);
        changed := changed || rows[i].sessions > Get(accounts, rows[i].address).sessions;
        var delta := CreditRow(rows[i]);
        if delta.None? || total + delta.value > U64_MAX || pendingActivated + delta.value > U64_MAX {
          return None, changed;
        }
        changed := changed || delta.value > 0;
        total := total + delta.value;
        pendingActivated := pendingActivated + delta.value;
      }
      credited := Some(total);
    }

    /** One row, up to the totals. */
    method CreditRow(row: Snapshot) returns (delta: Option<nat>)
      modifies `accounts
      ensures accounts == RowKept(old(accounts), row)
      ensures delta == if SyncRow(old(accounts), row).Success? then Some(RowDelta(old(accounts), row)) else None
    {
      var entry := Get(accounts, row.address);
      if row.sessions > entry.sessions {
        entry := entry.(sessions := row.sessions);
      }
      accounts := accounts[row.address := entry];
      if row.ants <= entry.totalActivated {
        return Some(0);
      }
      var rise := row.ants - entry.totalActivated;
      if entry.ants + rise > U64_MAX {
        return None;
      }
      entry := entry.(ants := entry.ants + rise);
      accounts := accounts[row.address := entry];
      if entry.activated + rise > U64_MAX {
        return None;
      }
      entry := entry.(activated := entry.activated + rise, totalActivated := row.ants);
      accounts := accounts[row.address := entry];
      delta := Some(rise);
    }

    /** The account loop of `sync_activated_accounts`. */
    method ClawBackUnlisted(rows: seq<Snapshot>) returns (removed: Option<nat>)
      modifies `accounts
      ensures removed.Some? <==> Clawback(old(accounts), rows).Success? && Sum(Removals(old(accounts), rows)) <= U64_MAX
      ensures if removed.Some?
              then Clawback(old(accounts), rows) == Success(accounts) &&
                removed.value == Sum(Removals(old(accounts), rows))
              else ClawbackLeft(old(accounts), rows, accounts)
    {
      ghost var before := accounts;
      var active := ListedAddresses(rows);
      var todo := accounts.Keys;
      var total: u64 := 0;
      RemovedEnds(before, rows);
      while todo != {}
        invariant ClawedExcept(before, accounts, rows, todo)
        invariant total == Sum(RemovedBut(before, rows, todo))
        decreases todo
      {
        var a :| a in todo;
        var ok, entry, grown := ClearAccount(accounts[a], a in active, total);
        if !ok {
          ClawbackStops(before, accounts, rows, todo, a, total, entry, grown);
          accounts := accounts[a := entry];
          return None;
        }
        ClawbackGoesOn(before, accounts, rows, todo, a, total, entry, grown);
        accounts, total, todo := accounts[a := entry], grown, todo - {a};
      }
      ClawbackIsPointwise(before, rows, accounts);
      removed := Some(total);
    }

    /** Seats are derived again from the accounts. */
    method RefreshValidators()
      modifies `eligibleMiners
      ensures forall order :: Validators.Enumerates(order, accounts) ==>
                                eligibleMiners == Validators.ActiveValidatorSet(accounts, order, bootstrapValidators)
    {
      var order := Enumerate(accounts);
      eligibleMiners := Validators.ActiveValidatorSet(accounts, order, bootstrapValidators);
      forall other | Validators.Enumerates(other, accounts)
        ensures eligibleMiners == Validators.ActiveValidatorSet(accounts, other, bootstrapValidators)
      {
        Validators.ActiveSetIsDeterministic(accounts, order, other, bootstrapValidators, bootstrapValidators);
      }
    }

    /** `sync_activated_accounts`; `written` says whether the genesis file takes the new snapshot. An
        error in the row loop leaves the rows before it credited, one in the clawback leaves some
        wallets cleared, a failing write leaves everything synced; the seats are then not derived
        again. */
    method SyncActivatedAccounts(rows: seq<Snapshot>, written: bool) returns (credited: Option<nat>)
      modifies `accounts, `pendingActivated, `eligibleMiners
      ensures credited.Some? <==>
              && Sync(old(accounts), rows).Success? && TotalsFit(old(accounts), rows, old(pendingActivated))
              && (Rewrites(old(accounts), rows) ==> written)
      ensures credited.Some? ==>
                && Sync(old(accounts), rows) == Success(accounts)
                && credited.value == Credited(old(accounts), rows)
                && pendingActivated == old(pendingActivated) + credited.value
                && forall order :: Validators.Enumerates(order, accounts) ==>
                                     eligibleMiners == Validators.ActiveValidatorSet(accounts, order,
                                       bootstrapValidators)
      ensures credited.None? ==>
                var loop := RowsKept(old(accounts), rows, old(pendingActivated));
                var pending := old(pendingActivated) + Credited(old(accounts), rows);
                && eligibleMiners == old(eligibleMiners)
                && if SyncRows(old(accounts), rows).Failure? || pending > U64_MAX then accounts == loop
                   else if Clawback(loop, rows).Success? && Sum(Removals(loop, rows)) <= U64_MAX
                   then Clawback(loop, rows) == Success(accounts)
                   else ClawbackLeft(loop, rows, accounts)
    {
      ActivatedSupply.RowsKeptWhenEnds(accounts, rows, pendingActivated);
      var changed: bool;
      credited, changed := CreditRows(rows);
      if credited.None? {
        return;
      }
      var removed := ClawBackUnlisted(rows);
      if removed.None? {
        return None;
      }
      if (changed || removed.value > 0) && !written {
        return None;
      }
      RefreshValidators();
    }

    /** `migrate_legacy_to_secp`: what moved of ants, sessions and historical activation. When
        the new account cannot take it all, the legacy one has been emptied already. */
    method MigrateLegacyToSecp(legacy: Address, secp: Address) returns (moved: Option<(u64, u64, u64)>)
      modifies `accounts
      ensures var next := ActivatedSupply.Migrate(old(accounts), legacy, secp);
        && (moved.Some? <==> next.Some?)
        && (moved.Some? ==>
              var was := old(accounts)[legacy];
              accounts == next.value && moved.value == (was.ants, was.sessions, was.totalActivated))
        && (moved.None? ==> ActivatedSupply.MigrationLeft(old(accounts), legacy, secp, accounts))
    {
      if legacy == secp || legacy !in accounts {
        return None;
      }
      var was := accounts[legacy];
      accounts := accounts[legacy := Account(0, 0, was.totalActivated, 0, map[])];
      var ok, entry := MergeInto(Get(accounts, secp), was);
      accounts := accounts[secp := entry];
      moved := if ok then Some((was.ants, was.sessions, was.totalActivated)) else None;
    }

    /** The fee of a burn, shared among the validators. */
    method PayValidators() returns (r: Option<LedgerError>)
      modifies `accounts
      ensures var next := ActivatedSupply.ShareBurnFee(old(accounts), eligibleMiners);
        && r == (if next.Success? then None else Some(next.error))
        && accounts == ActivatedSupply.ShareKept(old(accounts), eligibleMiners)
        && (next.Success? ==> accounts == next.value)
    {
      if |eligibleMiners| == 0 {
        if FEE_RESERVE in accounts {
          r := PayReserve(MIN_FEE_ANTS);
          return;
        }
        return None;
      }
      var per, remainder := MIN_FEE_ANTS / |eligibleMiners|, MIN_FEE_ANTS % |eligibleMiners|;
      if per > 0 {
        LedgerLoops.KeptAll(accounts, MinerEntries(eligibleMiners, per));
        var paid, kept := LedgerLoops.PayMiners(accounts, eligibleMiners, per);
        accounts := kept;
        if paid.Failure? {
          return Some(paid.error);
        }
      }
      if remainder > 0 && FEE_RESERVE in accounts {
        r := PayReserve(remainder);
        return;
      }
      r := None;
    }

    method PayReserve(amount: u64) returns (r: Option<LedgerError>)
      modifies `accounts
      ensures var next := Apply(old(accounts), [Credit(FEE_RESERVE, amount)]);
        && r == (if next.Success? then None else Some(next.error))
        && accounts == Kept(old(accounts), [Credit(FEE_RESERVE, amount)])
        && (next.Success? ==> accounts == next.value)
    {
      LedgerLoops.KeptAll(accounts, [Credit(FEE_RESERVE, amount)]);
      var paid := LedgerLoops.PayReserve(accounts, amount);
      if paid.Failure? {
        return Some(paid.error);
      }
      accounts := paid.value;
      r := None;
    }

    /** `bridge_burn_anet`; the result is the balance right after the debit. */
    method BridgeBurnAnet(a: Address, amount: u64) returns (r: Result<u64, LedgerError>)
      modifies `accounts
      ensures var next := ActivatedSupply.Burn(old(accounts), a, amount, eligibleMiners);
        && (r.Success? <==> next.Success?)
        && (r.Success? ==> accounts == next.value && r.value == Balance(old(accounts), a) - amount - MIN_FEE_ANTS)
        && (r.Failure? ==> r.error == next.error)
        && accounts == ActivatedSupply.BurnKept(old(accounts), a, amount, eligibleMiners)
    {
      if amount == 0 || amount + MIN_FEE_ANTS > U64_MAX {
        return Failure(DebitOverflow);
      }
      if a !in accounts {
        return Failure(SenderMissing);
      }
      if accounts[a].ants < amount + MIN_FEE_ANTS {
        return Failure(Underflow);
      }
      accounts := accounts[a := Spend(accounts[a], amount + MIN_FEE_ANTS)];
      var left := accounts[a].ants;
      var problem := PayValidators();
      if problem.Some? {
        return Failure(problem.value);
      }
      return Success(left);
    }

    function DexView(): Dex.Dex
      reads this
    {
      Dex.Dex(accounts, dexPools, bridgeFunded)
    }

    /** `ensure_eligible_account_mut`. */
    method EligibleAccount(a: Address) returns (problem: Option<Dex.DexError>)
      ensures problem.None? <==> Dex.EligibleAccount(DexView(), a).Success?
      ensures problem.Some? ==> Dex.EligibleAccount(DexView(), a) == Failure(problem.value)
    {
      if a !in accounts {
        return Some(Dex.AccountNotFound);
      }
      if a !in bridgeFunded && accounts[a].sessions < MIN_SESSIONS_FOR_ANET {
        return Some(Dex.NotEligible);
      }
      problem := None;
    }

    /** `debit_anet` on an eligible account. */
    method TakeAnet(a: Address, x: u64) returns (problem: Option<Dex.DexError>)
      modifies `accounts
      ensures var paid := DexErrors.AnetDebit(old(DexView()), a, x);
        && problem == (if paid.Success? then None else Some(paid.error))
        && accounts == if paid.Success? then old(accounts)[a := paid.value] else old(accounts)
    {
      problem := EligibleAccount(a);
      if problem.Some? {
        return;
      }
      var acct := accounts[a];
      if acct.ants < x {
        return Some(Dex.InsufficientAnet);
      }
      accounts := accounts[a := acct.(ants := acct.ants - x, activated := SatSub(acct.activated, x))];
    }

    /** `debit_asset` on an eligible account. */
    method TakeAsset(a: Address, symbol: string, x: u64) returns (problem: Option<Dex.DexError>)
      modifies `accounts
      ensures var paid := DexErrors.AssetDebit(old(DexView()), a, symbol, x);
        && problem == (if paid.Success? then None else Some(paid.error))
        && accounts == if paid.Success? then old(accounts)[a := paid.value] else old(accounts)
    {
      problem := EligibleAccount(a);
      if problem.Some? {
        return;
      }
      var acct := accounts[a];
      var balance := Dex.Asset(acct, symbol);
      if balance < x {
        return Some(Dex.InsufficientAsset);
      }
      accounts := accounts[a := acct.(assets := acct.assets[symbol := balance - x])];
    }

    /** `credit_anet`. */
    method GiveAnet(a: Address, x: nat) returns (problem: Option<Dex.DexError>)
      requires a in accounts
      modifies `accounts
      ensures var paid := Dex.CreditAnet(old(accounts)[a], x);
        && problem == (if paid.Success? then None else Some(paid.error))
        && accounts == if paid.Success? then old(accounts)[a := paid.value] else old(accounts)
    {
      var acct := accounts[a];
      if acct.ants + x > U64_MAX {
        return Some(Dex.BalanceOverflow);
      }
      accounts := accounts[a := acct.(ants := acct.ants + x)];
      problem := None;
    }

    /** `credit_asset`. */
    method GiveAsset(a: Address, symbol: string, x: nat) returns (problem: Option<Dex.DexError>)
      requires a in accounts
      modifies `accounts
      ensures var paid := Dex.CreditAsset(old(accounts)[a], symbol, x);
        && problem == (if paid.Success? then None else Some(paid.error))
        && accounts == if paid.Success? then old(accounts)[a := paid.value] else old(accounts)
    {
      var acct := accounts[a];
      var balance := Dex.Asset(acct, symbol);
      if balance + x > U64_MAX {
        return Some(Dex.BalanceOverflow);
      }
      accounts := accounts[a := acct.(assets := acct.assets[symbol := balance + x])];
      problem := None;
    }

    /** Both debits of a deposit, ANET first. */
    method TakeDeposit(a: Address, symbol: string, anet: u64, token: u64) returns (problem: Option<Dex.DexError>)
      modifies `accounts
      ensures var paid := Dex.Deposit(old(DexView()), a, symbol, anet, token);
        && problem == (if paid.Success? then None else Some(paid.error))
        && accounts == DexErrors.DepositKept(old(DexView()), a, symbol, anet, token)
    {
      problem := TakeAnet(a, anet);
      if problem.Some? {
        return;
      }
      problem := TakeAsset(a, symbol, token);
    }

    /** `dex_wrap_anet`. */
    method DexWrapAnet(wallet: Address, x: u64) returns (r: Result<u64, Dex.DexError>)
      modifies `accounts
      ensures var next := Dex.Wrap(old(DexView()), wallet, x);
        && (r.Success? <==> next.Success?)
        && (r.Success? ==> DexView() == next.value && r.value == Dex.Asset(Get(accounts, wallet), Dex.WANET))
        && (r.Failure? ==>
              r.error == next.error && accounts == DexErrors.Residue(old(DexView()), Dex.WrapAnet(wallet, x)))
    {
      if x == 0 {
        return Failure(Dex.ZeroLiquidity);
      }
      var problem := TakeAnet(wallet, x);
      if problem.Some? {
        return Failure(problem.value);
      }
      problem := GiveAsset(wallet, Dex.WANET, x);
      if problem.Some? {
        return Failure(problem.value);
      }
      return Success(Dex.Asset(accounts[wallet], Dex.WANET));
    }

    /** `dex_unwrap_wanet`. */
    method DexUnwrapWanet(wallet: Address, x: u64) returns (r: Result<u64, Dex.DexError>)
      modifies `accounts
      ensures var next := Dex.Unwrap(old(DexView()), wallet, x);
        && (r.Success? <==> next.Success?)
        && (r.Success? ==> DexView() == next.value && r.value == Balance(accounts, wallet))
        && (r.Failure? ==>
              r.error == next.error && accounts == DexErrors.Residue(old(DexView()), Dex.UnwrapWanet(wallet, x)))
    {
      if x == 0 {
        return Failure(Dex.ZeroLiquidity);
      }
      var problem := TakeAsset(wallet, Dex.WANET, x);
      if problem.Some? {
        return Failure(problem.value);
      }
      problem := GiveAnet(wallet, x);
      if problem.Some? {
        return Failure(problem.value);
      }
      return Success(accounts[wallet].ants);
    }

    /** `dex_create_pool`; the result is the first provider's units. */
    method DexCreatePool(provider: Address, symbol: string, anet: u64, token: u64, fee: Option<nat>)
      returns (r: Result<nat, Dex.DexError>)
      modifies `accounts, `dexPools
      ensures var next := Dex.CreatePool(old(DexView()), provider, symbol, anet, token, fee);
        && (r.Success? <==> next.Success?)
        && (r.Success? ==> DexView() == next.value && r.value == next.value.pools[symbol].totalLp)
        && (r.Failure? ==>
              && r.error == next.error && dexPools == old(dexPools)
              && accounts == DexErrors.Residue(old(DexView()), Dex.Create(provider, symbol, anet, token, fee)))
    {
      if !Dex.ValidSymbol(symbol) {
        return Failure(Dex.BadSymbol);
      }
      if symbol in dexPools {
        return Failure(Dex.PoolExists);
      }
      if anet == 0 || token == 0 {
        return Failure(Dex.ZeroLiquidity);
      }
      var problem := TakeDeposit(provider, symbol, anet, token);
      if problem.Some? {
        return Failure(problem.value);
      }
      var bps := fee.GetOr(Dex.DEFAULT_FEE_BPS);
      if bps > DexMath.MAX_FEE_BPS {
        return Failure(Dex.QuoteFailed(DexMath.FeeTooHigh));
      }
      var lp := InitialLpUnits(anet, token);
      dexPools := dexPools[symbol := Dex.Pool(anet, token, lp, bps, map[provider := lp])];
      return Success(lp);
    }

    /** `dex_add_liquidity`; the result is the units minted. Past the debits only 128-bit
        overflow can fail, and then the pool may hold part of the deposit. */
    method DexAddLiquidity(provider: Address, symbol: string, anet: u64, token: u64)
      returns (r: Result<nat, Dex.DexError>)
      modifies `accounts, `dexPools
      ensures var next := Dex.AddLiquidity(old(DexView()), provider, symbol, anet, token);
        && (r.Success? <==> next.Success?)
        && (r.Success? ==>
              && DexView() == next.value
              && r.value == next.value.pools[symbol].totalLp - old(dexPools)[symbol].totalLp)
        && (r.Failure? ==>
              && r.error == next.error && (r.error.ReserveOverflow? || dexPools == old(dexPools))
              && accounts == DexErrors.Residue(old(DexView()), Dex.Add(provider, symbol, anet, token)))
    {
      if !Dex.ValidSymbol(symbol) {
        return Failure(Dex.BadSymbol);
      }
      if anet == 0 || token == 0 {
        return Failure(Dex.ZeroLiquidity);
      }
      if symbol !in dexPools {
        return Failure(Dex.PoolNotFound);
      }
      var minted := MintedUnits(dexPools[symbol], anet, token);
      if minted.Failure? {
        return Failure(minted.error);
      }
      var problem := TakeDeposit(provider, symbol, anet, token);
      if problem.Some? {
        return Failure(problem.value);
      }
      var pool := dexPools[symbol];
      if pool.anet + anet > DexMath.U128_MAX {
        return Failure(Dex.ReserveOverflow);
      }
      dexPools := dexPools[symbol := dexPools[symbol].(anet := pool.anet + anet)];
      if pool.token + token > DexMath.U128_MAX {
        return Failure(Dex.ReserveOverflow);
      }
      dexPools := dexPools[symbol := dexPools[symbol].(token := pool.token + token)];
      if pool.totalLp + minted.value > DexMath.U128_MAX {
        return Failure(Dex.ReserveOverflow);
      }
      dexPools := dexPools[symbol := dexPools[symbol].(
        totalLp := pool.totalLp + minted.value,
        positions := pool.positions[provider := Dex.Position(pool, provider) + minted.value])];
      return Success(minted.value);
    }

    /** The trader's two account changes. */
    method ExchangeAmounts(trader: Address, symbol: string, amount: u64, out: nat, anetToToken: bool)
      returns (problem: Option<Dex.DexError>)
      modifies `accounts
      ensures var traded := DexErrors.SwapExchange(old(DexView()), trader, symbol, amount, out, anetToToken);
        && problem == (if traded.Success? then None else Some(traded.error))
        && accounts == DexErrors.Kept(old(DexView()), trader,
             DexErrors.SwapDebit(old(DexView()), trader, symbol, amount, anetToToken), traded)
    {
      if anetToToken {
        problem := TakeAnet(trader, amount);
        if problem.None? {
          problem := GiveAsset(trader, symbol, out);
        }
      } else {
        problem := TakeAsset(trader, symbol, amount);
        if problem.None? {
          problem := GiveAnet(trader, out);
        }
      }
    }

    /** The pool's side of a swap, with its checks. */
    method MoveReserves(symbol: string, amount: u64, out: nat, anetToToken: bool, minOut: u64)
      returns (problem: Option<Dex.DexError>)
      requires symbol in dexPools
      modifies `dexPools
      ensures var p := old(dexPools)[symbol];
        && (problem.None? ==>
              && out >= minOut && out <= (if anetToToken then p.token else p.anet)
              && dexPools == old(dexPools)[symbol := Dex.Swapped(p, amount, out, anetToToken)])
        && problem == Dex.PoolProblem(p, amount, out, anetToToken, minOut)
        && (problem == Some(Dex.SlippageExceeded) ==> dexPools == old(dexPools))
    {
      var pool := dexPools[symbol];
      if out < minOut {
        return Some(Dex.SlippageExceeded);
      }
      if pool.anet * pool.token > DexMath.U128_MAX {
        return Some(Dex.ReserveOverflow);
      }
      if anetToToken {
        if pool.token < out || pool.anet + amount > DexMath.U128_MAX {
          return Some(Dex.ReserveOverflow);
        }
        dexPools := dexPools[symbol := pool.(anet := pool.anet + amount, token := pool.token - out)];
      } else {
        if pool.anet < out || pool.token + amount > DexMath.U128_MAX {
          return Some(Dex.ReserveOverflow);
        }
        dexPools := dexPools[symbol := pool.(token := pool.token + amount, anet := pool.anet - out)];
      }
      var next := dexPools[symbol];
      if next.anet > DexMath.U128_MAX || next.token > DexMath.U128_MAX || next.anet * next.token > DexMath.U128_MAX {
        return Some(Dex.ReserveOverflow);
      }
      if next.anet * next.token < pool.anet * pool.token {
        return Some(Dex.InvariantViolation);
      }
      problem := None;
    }

    /** The checks before the account is touched. */
    method QuoteForSwap(symbol: string, amount: u64, anetToToken: bool, height: u64, deadline: Option<u64>)
      returns (r: Result<nat, Dex.DexError>)
      ensures r ==
        if deadline.Some? && height > deadline.value then Failure(Dex.DeadlineExpired)
        else if !Dex.ValidSymbol(symbol) then Failure(Dex.BadSymbol)
        else if amount == 0 then Failure(Dex.ZeroLiquidity)
        else if symbol !in dexPools then Failure(Dex.PoolNotFound)
        else
          var quote := Dex.SwapQuote(dexPools[symbol], amount, anetToToken);
          if quote.Failure? then Failure(Dex.QuoteFailed(quote.error)) else Success(quote.value.amountOut)
    {
      if deadline.Some? && height > deadline.value {
        return Failure(Dex.DeadlineExpired);
      }
      if !Dex.ValidSymbol(symbol) {
        return Failure(Dex.BadSymbol);
      }
      if amount == 0 {
        return Failure(Dex.ZeroLiquidity);
      }
      if symbol !in dexPools {
        return Failure(Dex.PoolNotFound);
      }
      var quote := Dex.SwapQuote(dexPools[symbol], amount, anetToToken);
      if quote.Failure? {
        return Failure(Dex.QuoteFailed(quote.error));
      }
      return Success(quote.value.amountOut);
    }

    method SwapAtHeight(trader: Address, symbol: string, amount: u64, anetToToken: bool, minOut: u64, height: u64,
                        deadline: Option<u64>)
      returns (r: Result<nat, Dex.DexError>)
      modifies `accounts, `dexPools
      ensures
        var next := Dex.Swap(old(DexView()), trader, symbol, amount, anetToToken, minOut, height, deadline);
        var op := Dex.SwapIn(trader, symbol, amount, anetToToken, minOut, height, deadline);
        && (r.Success? <==> next.Success?)
        && (r.Success? ==>
              && DexView() == next.value
              && r.value == Dex.SwapQuote(old(dexPools)[symbol], amount, anetToToken).value.amountOut)
        && (r.Failure? ==>
              && r.error == next.error
              && (r.error.ReserveOverflow? || r.error.InvariantViolation? || dexPools == old(dexPools))
              && accounts == DexErrors.Residue(old(DexView()), op))
    {
      r := QuoteForSwap(symbol, amount, anetToToken, height, deadline);
      if r.Failure? {
        return;
      }
      var out := r.value;
      var problem := ExchangeAmounts(trader, symbol, amount, out, anetToToken);
      if problem.Some? {
        return Failure(problem.value);
      }
      problem := MoveReserves(symbol, amount, out, anetToToken, minOut);
      if problem.Some? {
        r := Failure(problem.value);
      }
    }

    /** `dex_swap`. */
    method DexSwap(trader: Address, symbol: string, amount: u64, anetToToken: bool, minOut: u64, deadline: Option<u64>)
      returns (r: Result<nat, Dex.DexError>)
      modifies `accounts, `dexPools
      ensures
        var next := Dex.Swap(old(DexView()), trader, symbol, amount, anetToToken, minOut, LastHeight(blocks), deadline);
        var op := Dex.SwapIn(trader, symbol, amount, anetToToken, minOut, LastHeight(blocks), deadline);
        && (r.Success? <==> next.Success?)
        && (r.Success? ==>
              && DexView() == next.value
              && r.value == Dex.SwapQuote(old(dexPools)[symbol], amount, anetToToken).value.amountOut)
        && (r.Failure? ==>
              && r.error == next.error
              && (r.error.ReserveOverflow? || r.error.InvariantViolation? || dexPools == old(dexPools))
              && accounts == DexErrors.Residue(old(DexView()), op))
    {
      var height := if |blocks| == 0 then 0 else blocks[|blocks| - 1].body.height;
      r := SwapAtHeight(trader, symbol, amount, anetToToken, minOut, height, deadline);
    }

    function Market(): Anrc20.Market
      reads this
    {
      Anrc20.Market(DexView(), tokenRegistry)
    }

    /** `credit_asset` on an account that is created when missing. */
    method CreditUnits(a: Address, symbol: string, x: u64) returns (problem: Option<Anrc20.TokenError>)
      modifies `accounts
      ensures var next := Anrc20.GiveUnits(old(accounts), a, symbol, x);
        && problem == (if next.Success? then None else Some(next.error))
        && accounts == if next.Success? then next.value else old(accounts)
    {
      var acct := Get(accounts, a);
      var balance := Dex.Asset(acct, symbol);
      if balance + x > U64_MAX {
        return Some(Anrc20.AssetFailed(Dex.BalanceOverflow));
      }
      accounts := accounts[a := acct.(assets := acct.assets[symbol := balance + x])];
      problem := None;
    }

    /** `anrc20_create_token`. */
    method Anrc20CreateToken(owner: Address, symbol: string, name: string, decimals: nat, supply: u64, mintable: bool)
      returns (problem: Option<Anrc20.TokenError>)
      modifies `accounts, `tokenRegistry
      ensures var next := Anrc20.CreateToken(old(Market()), owner, symbol, name, decimals, supply, mintable);
        && problem == (if next.Success? then None else Some(next.error))
        && (if next.Success? then Market() == next.value
            else tokenRegistry == old(tokenRegistry) && accounts == old(accounts))
    {
      if !Dex.ValidSymbol(symbol) {
        return Some(Anrc20.BadSymbol);
      }
      if symbol in tokenRegistry {
        return Some(Anrc20.TokenExists);
      }
      if Text.Trim(name) == "" || |name| > 64 {
        return Some(Anrc20.BadName);
      }
      if decimals > 18 {
        return Some(Anrc20.BadDecimals);
      }
      var balances: map<Address, u64> := map[];
      if supply > 0 {
        problem := CreditUnits(owner, symbol, supply);
        if problem.Some? {
          return;
        }
        balances := map[owner := supply];
      } else {
        accounts := accounts[owner := Get(accounts, owner)];
      }
      tokenRegistry := tokenRegistry[symbol := Anrc20.Token(Text.Trim(name), decimals, supply, owner, mintable,
        balances)];
      problem := None;
    }

    /** `anrc20_mint`. The registry is changed first, so a mint refused by the account ledger
        stays in the registry. */
    method Anrc20Mint(caller: Address, to: Address, symbol: string, amount: u64)
      returns (problem: Option<Anrc20.TokenError>)
      modifies `accounts, `tokenRegistry
      ensures var next := Anrc20.Mint(old(Market()), caller, to, symbol, amount);
        && problem == (if next.Success? then None else Some(next.error))
        && (next.Success? ==> Market() == next.value)
        && Market() == Anrc20.MintKept(old(Market()), caller, to, symbol, amount)
    {
      if amount == 0 {
        return Some(Anrc20.ZeroAmount);
      }
      if !Dex.ValidSymbol(symbol) {
        return Some(Anrc20.BadSymbol);
      }
      if symbol !in tokenRegistry {
        return Some(Anrc20.TokenNotFound);
      }
      var token := tokenRegistry[symbol];
      if !token.mintable {
        return Some(Anrc20.NotMintable);
      }
      if token.owner != caller {
        return Some(Anrc20.NotOwner);
      }
      if token.supply + amount > U64_MAX {
        return Some(Anrc20.SupplyOverflow);
      }
      var balance := Anrc20.Registered(token, to);
      tokenRegistry := tokenRegistry[symbol := token.(supply := token.supply + amount)];
      if balance + amount > U64_MAX {
        return Some(Anrc20.SupplyOverflow);
      }
      tokenRegistry := tokenRegistry[symbol := token.(supply := token.supply + amount,
        balances := token.balances[to := balance + amount])];
      problem := CreditUnits(to, symbol, amount);
    }

    /** The account side of a transfer. */
    method MoveUnits(from: Address, to: Address, symbol: string, amount: u64)
      returns (problem: Option<Anrc20.TokenError>)
      modifies `accounts
      ensures var next := Anrc20.MoveUnits(old(accounts), from, to, symbol, amount);
        && problem == (if next.Success? then None else Some(next.error))
        && (next.Success? ==> accounts == next.value)
        && accounts == Anrc20.UnitsKept(old(accounts), from, to, symbol, amount)
    {
      if from !in accounts {
        return Some(Anrc20.SenderNotFound);
      }
      var acct := accounts[from];
      var balance := Dex.Asset(acct, symbol);
      if balance < amount {
        return Some(Anrc20.AssetFailed(Dex.InsufficientAsset));
      }
      accounts := accounts[from := acct.(assets := acct.assets[symbol := balance - amount])];
      problem := CreditUnits(to, symbol, amount);
    }

    /** The registry side. */
    method MoveRegistered(symbol: string, from: Address, to: Address, amount: u64)
      returns (problem: Option<Anrc20.TokenError>)
      requires symbol in tokenRegistry
      modifies `tokenRegistry
      ensures var next := Anrc20.MoveRegistered(old(tokenRegistry)[symbol], from, to, amount);
        && problem == (if next.Success? then None else Some(next.error))
        && (next.Success? ==> tokenRegistry == old(tokenRegistry)[symbol := next.value])
        && tokenRegistry == old(tokenRegistry)[symbol := Anrc20.RegisteredKept(old(tokenRegistry)[symbol], from, to,
            amount)]
    {
      var token := tokenRegistry[symbol];
      var held := Anrc20.Registered(token, from);
      if held < amount {
        return Some(Anrc20.InsufficientToken);
      }
      token := token.(balances := token.balances[from := held - amount]);
      tokenRegistry := tokenRegistry[symbol := token];
      var received := Anrc20.Registered(token, to);
      if received + amount > U64_MAX {
        return Some(Anrc20.SupplyOverflow);
      }
      tokenRegistry := tokenRegistry[symbol := token.(balances := token.balances[to := received + amount])];
      problem := None;
    }

    /** `anrc20_transfer`. The accounts are changed first: when the registry refuses, the units
        have already moved there. */
    method Anrc20Transfer(from: Address, to: Address, symbol: string, amount: u64)
      returns (problem: Option<Anrc20.TokenError>)
      modifies `accounts, `tokenRegistry
      ensures var next := Anrc20.Transfer(old(Market()), from, to, symbol, amount);
        && problem == (if next.Success? then None else Some(next.error))
        && (next.Success? ==> Market() == next.value)
        && Market() == Anrc20.TransferKept(old(Market()), from, to, symbol, amount)
    {
      if amount == 0 {
        return Some(Anrc20.ZeroAmount);
      }
      if !Dex.ValidSymbol(symbol) {
        return Some(Anrc20.BadSymbol);
      }
      if from == to {
        return Some(Anrc20.SameParties);
      }
      problem := MoveUnits(from, to, symbol, amount);
      if problem.Some? {
        return;
      }
      if symbol !in tokenRegistry {
        return Some(Anrc20.TokenNotFound);
      }
      problem := MoveRegistered(symbol, from, to, amount);
    }
  }
}
