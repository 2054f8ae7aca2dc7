/** Queueing and sealing (src/state.rs:824-944, 1050-1124, 2210-2289).

    `Node` is the part of the node's state these steps touch. Every step is a
    function to the next node; the class in `NodeState` performs the same steps in
    place. Sealing does not roll back; `SealKept` is what an error leaves behind. */
module Mempool {
  import opened Wrappers
  import opened Ledger
  import opened Ordering
  import opened Sums
  import Text

  const MAX_MEMPOOL_TRANSACTIONS := 10_000
  const BRIDGE_CREDIT_MEMO_PREFIX := "bridge:evm:"
  const GENESIS := "GENESIS"

  datatype Node = Node(
    accounts: Accounts,
    mempool: seq<Tx>,
    nonces: map<Address, u64>,
    blocks: seq<Block>,
    miners: seq<Address>,
    funded: set<Address>,
    chainId: string)

  datatype NodeError =
    | InvalidTransaction
    | MempoolFull
    | UnknownSender
    | SenderNotEligible
    | UnknownRecipient
    | RecipientNotEligible
    | StaleNonce
    | DuplicateNonce
    | WrongNonce
    | DuplicateTransaction
    | PendingOverflow
    | TotalDebitOverflow
    | InsufficientBalance
    | ZeroCredit
    | InvalidRecipient
    | TreasuryOverflow
    | BadWindow
    | FeeOverflow
    | LedgerFailure(cause: LedgerError)
    | StoreFailed

  predicate MemoChar(c: char) {
    || !(c < ' ' || '\U{7F}' <= c <= '\U{9F}')
    || c in {'\n', '\r', '\t'}
  }

  predicate ValidMemo(memo: string) {
    |memo| <= 160 && forall i :: 0 <= i < |memo| ==> MemoChar(memo[i])
  }

  /** `validate_basic`. */
  predicate ValidBasic(tx: Tx) {
    && tx.from != [] && tx.to != [] && tx.from != tx.to
    && tx.amount > 0
    && tx.fee >= MIN_FEE_ANTS
    && Text.ValidWallet(tx.from) && Text.ValidWallet(tx.to)
    && ValidMemo(tx.memo)
  }

  /** `validate`: unsigned transactions pass on the basic checks alone. */
  predicate Valid(tx: Tx) {
    ValidBasic(tx) && (tx.auth.Legacy? || tx.auth.genuine)
  }

  /** `validate_signed_for_chain`. */
  predicate ValidForChain(tx: Tx, chainId: string) {
    && ValidBasic(tx)
    && tx.auth.Signed? && tx.auth.genuine
    && Text.Trim(tx.chainId) == Text.Trim(chainId)
    && tx.nonce >= 1
  }

  function DebitFrom(a: Address): Tx -> nat {
    (tx: Tx) => if tx.from == a then tx.Debit() else 0
  }

  function CreditTo(a: Address): Tx -> nat {
    (tx: Tx) => if tx.to == a then tx.amount else 0
  }

  function Fee(): Tx -> nat {
    (tx: Tx) => tx.fee
  }

  /** What the queue will take from one address. */
  function Pending(txs: seq<Tx>, a: Address): nat {
    SeqSum(txs, DebitFrom(a))
  }

  function Nonce(nonces: map<Address, u64>, a: Address): u64 {
    if a in nonces then nonces[a] else 0
  }

  predicate NonceQueued(txs: seq<Tx>, a: Address, n: u64) {
    exists i :: 0 <= i < |txs| && txs[i].from == a && txs[i].nonce == n
  }

  /** `expected` is the least nonce above `committed` that is not queued for `a`. */
  ghost predicate LeastFreeNonce(txs: seq<Tx>, a: Address, committed: u64, expected: u64) {
    && committed < expected
    && !NonceQueued(txs, a, expected)
    && forall n: u64 :: committed < n < expected ==> NonceQueued(txs, a, n)
  }

  predicate Eligible(n: Node, a: Address) {
    a in n.accounts && (a in n.funded || n.accounts[a].sessions >= MIN_SESSIONS_FOR_ANET)
  }

  /** Why `queue_transaction` refuses, in the order of its checks. */
  ghost function Rejection(n: Node, tx: Tx): Option<NodeError> {
    if !ValidForChain(tx, n.chainId) then Some(InvalidTransaction)
    else if |n.mempool| >= MAX_MEMPOOL_TRANSACTIONS then Some(MempoolFull)
    else if tx.from !in n.accounts then Some(UnknownSender)
    else if !Eligible(n, tx.from) then Some(SenderNotEligible)
    else if tx.to !in n.accounts then Some(UnknownRecipient)
    else if !Eligible(n, tx.to) then Some(RecipientNotEligible)
    else if tx.nonce <= Nonce(n.nonces, tx.from) then Some(StaleNonce)
    else if NonceQueued(n.mempool, tx.from, tx.nonce) then Some(DuplicateNonce)
    else if !LeastFreeNonce(n.mempool, tx.from, Nonce(n.nonces, tx.from), tx.nonce) then Some(WrongNonce)
    else if exists i :: 0 <= i < |n.mempool| && n.mempool[i].id == tx.id then Some(DuplicateTransaction)
    else if Pending(n.mempool, tx.from) > U64_MAX then Some(PendingOverflow)
    else if tx.Debit() > U64_MAX then Some(TotalDebitOverflow)
    else if Balance(n.accounts, tx.from) < Pending(n.mempool, tx.from) + tx.Debit() then Some(InsufficientBalance)
    else None
  }

  ghost function QueueTransaction(n: Node, tx: Tx): Result<Node, NodeError> {
    if Rejection(n, tx).Some? then Failure(Rejection(n, tx).value)
    else Success(n.(mempool := n.mempool + [tx]))
  }

  /** The unsigned treasury transfer that records a bridge credit. `memoHash` is the
      trimmed, lower-case EVM hash; `id` is the opaque hash of the transaction. */
  function BridgeTx(recipient: Address, amount: u64, memoHash: string, now: int, chainId: string, id: string): Tx {
    Tx(TREASURY, recipient, amount, MIN_FEE_ANTS, 0, BRIDGE_CREDIT_MEMO_PREFIX + memoHash, now, chainId, Legacy, id)
  }

  function QueueBridgeCredit(n: Node, recipient: Address, amount: u64, memoHash: string, now: int,
                             id: string): Result<Node, NodeError> {
    if amount == 0 then Failure(ZeroCredit)
    else if !Text.ValidWallet(recipient) || recipient == TREASURY then Failure(InvalidRecipient)
    else if amount + MIN_FEE_ANTS > U64_MAX then Failure(TotalDebitOverflow)
    else if Balance(n.accounts, TREASURY) + amount + MIN_FEE_ANTS > U64_MAX then Failure(TreasuryOverflow)
    else
      Success(n.(
              accounts := AddAnts(n.accounts, TREASURY, amount + MIN_FEE_ANTS),
              mempool := n.mempool + [BridgeTx(recipient, amount, memoHash, now, n.chainId, id)],
              funded := n.funded + {recipient}))
  }

  predicate TxBefore(x: Tx, y: Tx) {
    || x.timestamp < y.timestamp
    || (x.timestamp == y.timestamp &&
        (LexLt(x.from, y.from) ||
         (x.from == y.from &&
          (x.nonce < y.nonce ||
           (x.nonce == y.nonce && LexLe(x.TxHash(), y.TxHash()))))))
  }

  /** `sort_transactions_for_block`. */
  function SortForBlock(txs: seq<Tx>): seq<Tx> {
    Sort(txs, TxBefore)
  }

  function FeeShare(fees: nat, miners: nat): nat {
    if miners == 0 then 0 else fees / miners
  }

  /** `Block::new`. The unchecked fee sum is followed only while it fits 64 bits. */
  function NewBlock(hashOf: Body -> string, height: u64, start: int, end: int, previous: string, txs: seq<Tx>,
                    miners: seq<Address>): Result<Block, NodeError> {
    if end <= start then Failure(BadWindow)
    else if exists i :: 0 <= i < |txs| && !Valid(txs[i]) then Failure(InvalidTransaction)
    else
      var fees := SeqSum(txs, Fee());
      if fees > U64_MAX then Failure(FeeOverflow)
      else
        var body := Body(height, start, end, previous, txs, fees, miners, FeeShare(fees, |miners|));
        Success(Block(body, hashOf(body)))
  }

  function NextHeight(blocks: seq<Block>): u64 {
    if blocks == [] then 0
    else
      var last := blocks[|blocks| - 1].body.height;
      if last == U64_MAX then U64_MAX else last + 1
  }

  function TipHash(blocks: seq<Block>): string {
    if blocks == [] then GENESIS else blocks[|blocks| - 1].hash
  }

  /** Nonces after a block: the last transaction of each sender counts. */
  function CommitNonces(nonces: map<Address, u64>, txs: seq<Tx>): map<Address, u64> {
    if txs == [] then nonces
    else
      var last := txs[|txs| - 1];
      CommitNonces(nonces, txs[..|txs| - 1])[last.from := last.nonce]
  }

  /** `create_block`. */
  function Seal(hashOf: Body -> string, n: Node, start: int, end: int): Result<Node, NodeError> {
    var block :- NewBlock(hashOf, NextHeight(n.blocks), start, end, TipHash(n.blocks), SortForBlock(n.mempool),
      n.miners);
    var applied := Apply(n.accounts, BlockEntries(block));
    if applied.Failure? then Failure(LedgerFailure(applied.error))
    else
      Success(n.(
              accounts := applied.value,
              mempool := [],
              nonces := CommitNonces(n.nonces, block.body.txs),
              blocks := n.blocks + [block]))
  }

  /** The node after a `create_block` that returns an error: the queue is lost in every case.
      A refused block changes nothing else, a block that fails to apply leaves the part before
      the failure, and one the database refuses is applied and committed but not appended. */
  function SealKept(hashOf: Body -> string, n: Node, start: int, end: int): Node {
    var made := NewBlock(hashOf, NextHeight(n.blocks), start, end, TipHash(n.blocks), SortForBlock(n.mempool),
      n.miners);
    if made.Failure? then n.(mempool := [])
    else if Apply(n.accounts, BlockEntries(made.value)).Failure? then
      n.(mempool := [], accounts := Kept(n.accounts, BlockEntries(made.value)))
    else
      n.(mempool := [],
      accounts := Apply(n.accounts, BlockEntries(made.value)).value,
      nonces := CommitNonces(n.nonces, made.value.body.txs))
  }

  /** What the database does in one call of `create_block`: it cannot name its last hash, it refuses
      the block, or it stores it. */
  datatype Db = Unread | Refuses | Stores

  /** One call of `create_block`. The last hash is read before the queue is taken. */
  function SealAttempt(hashOf: Body -> string, n: Node, start: int, end: int, db: Db): Node {
    var sealed := Seal(hashOf, n, start, end);
    if db.Unread? then n
    else if db.Stores? && sealed.Success? then sealed.value
    else SealKept(hashOf, n, start, end)
  }
}
