/** Account balances and the effect of one block on them (src/state.rs, src/block.rs).

    A block is a list of ledger entries: one debit and one credit for each
    transaction, then the fee credits. `Apply` runs entries in order with the
    node's checked 64-bit arithmetic. */
module Ledger {
  import opened Wrappers

  const U64_MAX: int := 0xFFFF_FFFF_FFFF_FFFF

  type u64 = n: int | 0 <= n <= U64_MAX

  const MIN_FEE_ANTS: u64 := 1_000
  const MIN_SESSIONS_FOR_ANET: u64 := 1_000

  type Address = string

  const FEE_RESERVE: Address := "__tpow_fee_reserve__"
  const TREASURY: Address := "ANET000000000000000000000000000000000000"

  /** The value stored under an address; the address itself is the map key. */
  datatype Account = Account(
    ants: u64,
    activated: u64,
    totalActivated: u64,
    sessions: u64,
    assets: map<string, u64>)

  const EMPTY := Account(0, 0, 0, 0, map[])

  type Accounts = map<Address, Account>

  /** Cryptography is opaque: `genuine` stands for "the hash matches the
      canonical preimage and the signature recovers to the sender". */
  datatype Auth = Legacy | Signed(txHash: string, genuine: bool)

  datatype Tx = Tx(
    from: Address,
    to: Address,
    amount: u64,
    fee: u64,
    nonce: u64,
    memo: string,
    timestamp: int,
    chainId: string,
    auth: Auth,
    id: string)
  {
    function Debit(): nat {
      amount + fee
    }

    function TxHash(): string {
      if auth.Signed? then auth.txHash else ""
    }
  }

  /** What a block's hash covers. */
  datatype Body = Body(
    height: u64,
    epochStart: int,
    epochEnd: int,
    previousHash: string,
    txs: seq<Tx>,
    totalFees: u64,
    miners: seq<Address>,
    feePerMiner: u64)

  datatype Block = Block(body: Body, hash: string)

  datatype LedgerError =
    | SenderMissing
    | DebitOverflow
    | Underflow
    | CreditOverflow
    | TopUpOverflow

  datatype Entry = Debit(who: Address, amount: nat) | Credit(who: Address, amount: nat)

  function Get(accounts: Accounts, a: Address): Account {
    if a in accounts then accounts[a] else EMPTY
  }

  function Balance(accounts: Accounts, a: Address): u64 {
    Get(accounts, a).ants
  }

  function SatSub(x: u64, y: nat): u64 {
    if x < y then 0 else x - y
  }

  function SatAdd(x: u64, y: nat): u64 {
    if x + y > U64_MAX then U64_MAX else x + y
  }

  /** A debit reduces the balance exactly and the activated remainder down to zero. */
  function Spend(acct: Account, d: nat): Account
    requires d <= acct.ants
  {
    acct.(ants := acct.ants - d, activated := SatSub(acct.activated, d))
  }

  function Receive(acct: Account, c: nat): Account
    requires acct.ants + c <= U64_MAX
  {
    acct.(ants := acct.ants + c)
  }

  function ApplyEntry(accounts: Accounts, e: Entry): Result<Accounts, LedgerError> {
    match e
    case Debit(a, d) =>
      if a !in accounts then Failure(SenderMissing)
      else if d > U64_MAX then Failure(DebitOverflow)
      else if accounts[a].ants < d then Failure(Underflow)
      else Success(accounts[a := Spend(accounts[a], d)])
    case Credit(a, c) =>
      if Balance(accounts, a) + c > U64_MAX then Failure(CreditOverflow)
      else Success(accounts[a := Receive(Get(accounts, a), c)])
  }

  function Apply(accounts: Accounts, es: seq<Entry>): Result<Accounts, LedgerError>
    decreases es
  {
    if es == [] then Success(accounts)
    else
      var next :- ApplyEntry(accounts, es[0]);
      Apply(next, es[1..])
  }

  /** The accounts a run leaves behind: every entry up to the first that fails has been made. */
  function Kept(accounts: Accounts, es: seq<Entry>): Accounts
    decreases es
  {
    if es == [] || ApplyEntry(accounts, es[0]).Failure? then accounts
    else Kept(ApplyEntry(accounts, es[0]).value, es[1..])
  }

  function TxPair(tx: Tx): seq<Entry> {
    [Debit(tx.from, tx.Debit()), Credit(tx.to, tx.amount)]
  }

  function TxEntries(txs: seq<Tx>): seq<Entry> {
    if txs == [] then []
    else TxPair(txs[0]) + TxEntries(txs[1..])
  }

  function MinerEntries(miners: seq<Address>, share: nat): seq<Entry> {
    if miners == [] then [] else [Credit(miners[0], share)] + MinerEntries(miners[1..], share)
  }

  function FeeEntries(b: Body): seq<Entry> {
    if b.totalFees == 0 then []
    else if b.miners == [] then [Credit(FEE_RESERVE, b.totalFees)]
    else
      var rest := b.totalFees % |b.miners|;
      MinerEntries(b.miners, b.feePerMiner) + if rest > 0 then [Credit(FEE_RESERVE, rest)] else []
  }

  function BlockEntries(b: Block): seq<Entry> {
    TxEntries(b.body.txs) + FeeEntries(b.body)
  }

  function ChainEntries(blocks: seq<Block>): seq<Entry> {
    if blocks == [] then [] else BlockEntries(blocks[0]) + ChainEntries(blocks[1..])
  }

  /** Everything debited from, and credited to, one address. */
  function Debits(es: seq<Entry>, a: Address): nat {
    if es == [] then 0
    else (if es[0].Debit? && es[0].who == a then es[0].amount else 0) + Debits(es[1..], a)
  }

  function Credits(es: seq<Entry>, a: Address): nat {
    if es == [] then 0
    else (if es[0].Credit? && es[0].who == a then es[0].amount else 0) + Credits(es[1..], a)
  }

  lemma {:induction false} ApplyConcat(accounts: Accounts, xs: seq<Entry>, ys: seq<Entry>)
    ensures Apply(accounts, xs + ys) ==
      if Apply(accounts, xs).Failure? then Apply(accounts, xs) else Apply(Apply(accounts, xs).value, ys)
    decreases xs
  {
    if xs == [] {
      assert xs + ys == ys;
    } else {
      assert (xs + ys)[1..] == xs[1..] + ys;
      if ApplyEntry(accounts, xs[0]).Success? {
        ApplyConcat(ApplyEntry(accounts, xs[0]).value, xs[1..], ys);
      }
    }
  }

  /** A run that does not fail leaves its result; one that fails leaves the part before. */
  lemma {:induction false} KeptConcat(accounts: Accounts, xs: seq<Entry>, ys: seq<Entry>)
    ensures Apply(accounts, xs).Success? ==> Kept(accounts, xs) == Apply(accounts, xs).value
    ensures Kept(accounts, xs + ys) ==
      if Apply(accounts, xs).Failure? then Kept(accounts, xs) else Kept(Apply(accounts, xs).value, ys)
    decreases xs
  {
    if xs == [] {
      assert xs + ys == ys;
    } else {
      assert (xs + ys)[1..] == xs[1..] + ys;
      if ApplyEntry(accounts, xs[0]).Success? {
        KeptConcat(ApplyEntry(accounts, xs[0]).value, xs[1..], ys);
      }
    }
  }

  /** What is kept is a successful run of a first part of the entries. */
  lemma {:induction false} KeptIsPrefix(accounts: Accounts, es: seq<Entry>) returns (done: nat)
    ensures done <= |es| && Apply(accounts, es[..done]) == Success(Kept(accounts, es))
    ensures Apply(accounts, es).Success? ==> done == |es|
    decreases es
  {
    if es == [] || ApplyEntry(accounts, es[0]).Failure? {
      done := 0;
    } else {
      var rest := KeptIsPrefix(ApplyEntry(accounts, es[0]).value, es[1..]);
      done := rest + 1;
      assert es[..done][1..] == es[1..][..rest];
    }
  }

  lemma {:induction false} SumsConcat(xs: seq<Entry>, ys: seq<Entry>, a: Address)
    ensures Debits(xs + ys, a) == Debits(xs, a) + Debits(ys, a)
    ensures Credits(xs + ys, a) == Credits(xs, a) + Credits(ys, a)
  {
    if xs == [] {
      assert xs + ys == ys;
    } else {
      assert (xs + ys)[1..] == xs[1..] + ys;
      SumsConcat(xs[1..], ys, a);
    }
  }

  lemma {:induction false} ChainEntriesConcat(xs: seq<Block>, ys: seq<Block>)
    ensures ChainEntries(xs + ys) == ChainEntries(xs) + ChainEntries(ys)
  {
    if xs == [] {
      assert xs + ys == ys;
      assert [] + ChainEntries(ys) == ChainEntries(ys);
    } else {
      assert (xs + ys)[0] == xs[0] && (xs + ys)[1..] == xs[1..] + ys;
      ChainEntriesConcat(xs[1..], ys);
      EntriesAssoc(BlockEntries(xs[0]), ChainEntries(xs[1..]), ChainEntries(ys));
    }
  }

  lemma EntriesAssoc(x: seq<Entry>, y: seq<Entry>, z: seq<Entry>)
    ensures x + (y + z) == x + y + z
  {
  }

  /** An applied run moves each balance by exactly its credits minus its debits. */
  lemma {:induction false} ApplyBalance(accounts: Accounts, es: seq<Entry>, a: Address)
    requires Apply(accounts, es).Success?
    ensures Balance(Apply(accounts, es).value, a) == Balance(accounts, a) + Credits(es, a) - Debits(es, a)
    decreases es
  {
    if es != [] {
      ApplyBalance(ApplyEntry(accounts, es[0]).value, es[1..], a);
    }
  }

  /** Credit overflow is the only failure left once no address can exceed 64 bits,
      and it cannot happen either. */
  lemma {:induction false} NoCreditOverflow(accounts: Accounts, es: seq<Entry>)
    requires forall a :: Balance(accounts, a) + Credits(es, a) <= U64_MAX
    ensures Apply(accounts, es) != Failure(CreditOverflow)
    decreases es
  {
    if es != [] {
      var e := es[0];
      assert Balance(accounts, e.who) + Credits(es, e.who) <= U64_MAX;
      var r := ApplyEntry(accounts, e);
      if r.Success? {
        forall a ensures Balance(r.value, a) + Credits(es[1..], a) <= U64_MAX {
          assert Balance(accounts, a) + Credits(es, a) <= U64_MAX;
        }
        NoCreditOverflow(r.value, es[1..]);
      }
    }
  }

  /** Adding ants to one address before a run adds the same ants after it. */
  function AddAnts(accounts: Accounts, a: Address, d: nat): Accounts
    requires Balance(accounts, a) + d <= U64_MAX
  {
    accounts[a := Receive(Get(accounts, a), d)]
  }

  lemma EntryAddAnts(accounts: Accounts, e: Entry, a: Address, d: nat)
    requires ApplyEntry(accounts, e).Success?
    requires Balance(accounts, a) + d + Credits([e], a) <= U64_MAX
    ensures Balance(ApplyEntry(accounts, e).value, a) + d <= U64_MAX
    ensures ApplyEntry(AddAnts(accounts, a, d), e) == Success(AddAnts(ApplyEntry(accounts, e).value, a, d))
  {
    assert Credits([e], a) == if e == Credit(a, e.amount) then e.amount else 0;
    var next := ApplyEntry(accounts, e).value;
    var boosted := ApplyEntry(AddAnts(accounts, a, d), e);
    assert boosted.Success?;
    if e.who == a {
      assert boosted.value[a] == AddAnts(next, a, d)[a];
    }
    assert boosted.value == AddAnts(next, a, d);
  }

  lemma {:induction false} ApplyAddAnts(accounts: Accounts, es: seq<Entry>, a: Address, d: nat)
    requires Apply(accounts, es).Success?
    requires Balance(accounts, a) + d + Credits(es, a) <= U64_MAX
    ensures Balance(Apply(accounts, es).value, a) + d <= U64_MAX
    ensures Apply(AddAnts(accounts, a, d), es) == Success(AddAnts(Apply(accounts, es).value, a, d))
    decreases es
  {
    if es != [] {
      assert Credits(es, a) == Credits([es[0]], a) + Credits(es[1..], a);
      EntryAddAnts(accounts, es[0], a, d);
      ApplyAddAnts(ApplyEntry(accounts, es[0]).value, es[1..], a, d);
    }
  }
}
