/** Web2 activation sync (src/state.rs:633-705): snapshots raise a high-watermark, the
    increase is credited, and wallets below the session threshold that the snapshot
    no longer lists lose what is left of their activated ants. */
module Activation {
  import opened Wrappers
  import opened Ledger
  import opened Sums

  datatype Snapshot = Snapshot(address: Address, ants: u64, sessions: u64)

  function Max(x: u64, y: u64): u64 {
    if x < y then y else x
  }

  /** One row of a snapshot. */
  function SyncRow(accounts: Accounts, row: Snapshot): Result<Accounts, LedgerError> {
    var acct := Get(accounts, row.address);
    var seen := acct.(sessions := Max(acct.sessions, row.sessions));
    if row.ants <= acct.totalActivated then Success(accounts[row.address := seen])
    else
      var delta := row.ants - acct.totalActivated;
      if acct.ants + delta > U64_MAX || acct.activated + delta > U64_MAX then Failure(CreditOverflow)
      else
        Success(accounts[row.address := seen.(
                ants := acct.ants + delta,
                activated := acct.activated + delta,
                totalActivated := row.ants)])
  }

  /** What a row leaves behind when a checked addition stops it. */
  function RowKept(accounts: Accounts, row: Snapshot): Accounts {
    if SyncRow(accounts, row).Success? then SyncRow(accounts, row).value
    else
      var acct := Get(accounts, row.address);
      var seen, delta := acct.(sessions := Max(acct.sessions, row.sessions)), row.ants - acct.totalActivated;
      accounts[row.address := if acct.ants + delta > U64_MAX then seen else seen.(ants := acct.ants + delta)]
  }

  function SyncRows(accounts: Accounts, rows: seq<Snapshot>): Result<Accounts, LedgerError>
    decreases rows
  {
    if rows == [] then Success(accounts)
    else
      var next :- SyncRow(accounts, rows[0]);
      SyncRows(next, rows[1..])
  }

  /** The accounts after the row loop, whatever it returns; `pending` is the total of credits not
      yet sealed, which must fit 64 bits too. */
  function RowsKept(accounts: Accounts, rows: seq<Snapshot>, pending: nat): Accounts
    decreases rows
  {
    if rows == [] then accounts
    else
      var next := RowKept(accounts, rows[0]);
      if SyncRow(accounts, rows[0]).Failure? || pending + RowDelta(accounts, rows[0]) > U64_MAX then next
      else RowsKept(next, rows[1..], pending + RowDelta(accounts, rows[0]))
  }

  predicate Listed(rows: seq<Snapshot>, a: Address) {
    exists i :: 0 <= i < |rows| && rows[i].address == a
  }

  predicate ClawedBack(accounts: Accounts, rows: seq<Snapshot>, a: Address) {
    a in accounts && accounts[a].sessions < MIN_SESSIONS_FOR_ANET && accounts[a].activated > 0 && !Listed(rows, a)
  }

  /** The clawback subtracts the activated remainder from the balance. */
  function Clawback(accounts: Accounts, rows: seq<Snapshot>): Result<Accounts, LedgerError> {
    if exists a :: a in accounts && ClawedBack(accounts, rows, a) && accounts[a].ants < accounts[a].activated then
      Failure(Underflow)
    else
      Success(map a | a in accounts ::
                if ClawedBack(accounts, rows, a)
                then accounts[a].(ants := accounts[a].ants - accounts[a].activated, activated := 0, totalActivated := 0)
                else accounts[a])
  }

  /** What one row, and then a list of rows, credits. */
  function RowDelta(accounts: Accounts, row: Snapshot): nat {
    if row.ants <= Get(accounts, row.address).totalActivated then 0
    else row.ants - Get(accounts, row.address).totalActivated
  }

  function Credited(accounts: Accounts, rows: seq<Snapshot>): nat
    decreases rows
  {
    if rows == [] || SyncRow(accounts, rows[0]).Failure? then 0
    else RowDelta(accounts, rows[0]) + Credited(SyncRow(accounts, rows[0]).value, rows[1..])
  }

  /** Some row raises a session count or a watermark. */
  predicate Raises(accounts: Accounts, rows: seq<Snapshot>)
    decreases rows
  {
    rows != [] &&
    (|| rows[0].sessions > Get(accounts, rows[0].address).sessions
     || rows[0].ants > Get(accounts, rows[0].address).totalActivated
     || (SyncRow(accounts, rows[0]).Success? && Raises(SyncRow(accounts, rows[0]).value, rows[1..])))
  }

  /** What the clawback takes back in all. */
  ghost function Removals(accounts: Accounts, rows: seq<Snapshot>): map<Address, int> {
    map a | a in accounts && ClawedBack(accounts, rows, a) :: accounts[a].activated
  }

  /** One account during the clawback. */
  function AfterClawback(accounts: Accounts, rows: seq<Snapshot>, a: Address): Account
    requires a in accounts && (ClawedBack(accounts, rows, a) ==> accounts[a].activated <= accounts[a].ants)
  {
    if ClawedBack(accounts, rows, a)
    then accounts[a].(ants := accounts[a].ants - accounts[a].activated, activated := 0, totalActivated := 0)
    else accounts[a]
  }

  /** The clawback is done for every account outside `todo`, and only for those. */
  ghost predicate ClawedExcept(before: Accounts, now: Accounts, rows: seq<Snapshot>, todo: set<Address>) {
    && todo <= before.Keys == now.Keys
    && (forall a :: a in todo ==> now[a] == before[a])
    && (forall a :: a in before.Keys - todo ==>
                      && (ClawedBack(before, rows, a) ==> before[a].activated <= before[a].ants)
                      && now[a] == AfterClawback(before, rows, a))
  }

  /** What the clawback has taken outside `todo`. */
  ghost function RemovedBut(accounts: Accounts, rows: seq<Snapshot>, todo: set<Address>): map<Address, int> {
    map a | a in Removals(accounts, rows) && a !in todo :: Removals(accounts, rows)[a]
  }

  /** An error stopped the clawback at `a`, with `todo` not yet cleared: its balance does not cover
      the subtraction, or the total does not fit once the balance is already reduced. */
  ghost predicate StoppedAt(before: Accounts, rows: seq<Snapshot>, todo: set<Address>, a: Address, after: Accounts) {
    && a in todo && a in before && after.Keys == before.Keys && ClawedBack(before, rows, a)
    && ClawedExcept(before, after[a := before[a]], rows, todo)
    && if before[a].ants < before[a].activated then after[a] == before[a]
       else
         && Sum(RemovedBut(before, rows, todo)) + before[a].activated > U64_MAX
         && after[a] == before[a].(ants := before[a].ants - before[a].activated)
  }

  /** What a clawback that returns an error leaves, in some order of the accounts. */
  ghost predicate ClawbackLeft(before: Accounts, rows: seq<Snapshot>, after: Accounts) {
    exists todo, a :: StoppedAt(before, rows, todo, a, after)
  }

  /** A sync that gets this far writes the genesis file. */
  ghost predicate Rewrites(accounts: Accounts, rows: seq<Snapshot>)
    requires SyncRows(accounts, rows).Success?
  {
    Raises(accounts, rows) || Sum(Removals(SyncRows(accounts, rows).value, rows)) > 0
  }

  /** The totals a sync reports must fit 64 bits as well. */
  ghost predicate TotalsFit(accounts: Accounts, rows: seq<Snapshot>, pending: u64) {
    && pending + Credited(accounts, rows) <= U64_MAX
    && (SyncRows(accounts, rows).Success? ==> Sum(Removals(SyncRows(accounts, rows).value, rows)) <= U64_MAX)
  }

  /** `sync_activated_accounts` as far as balances go. */
  function Sync(accounts: Accounts, rows: seq<Snapshot>): Result<Accounts, LedgerError> {
    var credited :- SyncRows(accounts, rows);
    Clawback(credited, rows)
  }
}
