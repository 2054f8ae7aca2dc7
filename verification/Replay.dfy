/** Restart: the node rebuilds balances by replaying stored blocks over genesis
    (src/state.rs, `reconcile_replay_sender_balances` and `replay_blocks`).

    Reconciliation first simulates the whole history, raising a sender's balance
    whenever it falls short, and records the raises. It then credits every
    recorded top-up up front, after which the blocks are applied for real. */
module Replay {
  import opened Wrappers
  import opened Ledger

  type Amounts = map<Address, nat>

  datatype Sim = Sim(accounts: Accounts, topUps: Amounts)

  function Top(c: Amounts, a: Address): nat {
    if a in c then c[a] else 0
  }

  /** A top-up also counts as activated supply, saturating. */
  function TopUp(acct: Account, x: nat): Account
    requires acct.ants + x <= U64_MAX
  {
    acct.(
    ants := acct.ants + x,
    activated := SatAdd(acct.activated, x),
    totalActivated := SatAdd(acct.totalActivated, x))
  }

  function SimEntry(s: Sim, e: Entry): Result<Sim, LedgerError> {
    match e
    case Debit(a, d) =>
      var acct := Get(s.accounts, a);
      if d > U64_MAX then Failure(DebitOverflow)
      else if acct.ants >= d then Success(s.(accounts := s.accounts[a := Spend(acct, d)]))
      else
        var deficit := d - acct.ants;
        if Top(s.topUps, a) + deficit > U64_MAX then Failure(TopUpOverflow)
        else Success(Sim(s.accounts[a := Spend(TopUp(acct, deficit), d)],
                         s.topUps[a := Top(s.topUps, a) + deficit]))
    case Credit(a, c) =>
      if Balance(s.accounts, a) + c > U64_MAX then Failure(CreditOverflow)
      else Success(s.(accounts := s.accounts[a := Receive(Get(s.accounts, a), c)]))
  }

  function SimRun(s: Sim, es: seq<Entry>): Result<Sim, LedgerError>
    decreases es
  {
    if es == [] then Success(s)
    else
      var next :- SimEntry(s, es[0]);
      SimRun(next, es[1..])
  }

  predicate Fits(g: Accounts, c: Amounts) {
    forall a :: a in c ==> Balance(g, a) + c[a] <= U64_MAX
  }

  function UpFront(g: Accounts, c: Amounts): (r: Accounts)
    requires Fits(g, c)
    ensures r.Keys == g.Keys + c.Keys
    ensures forall a :: Balance(r, a) == Balance(g, a) + Top(c, a)
  {
    map a | a in g.Keys + c.Keys :: if a in c then TopUp(Get(g, a), c[a]) else g[a]
  }

  function Reconcile(g: Accounts, es: seq<Entry>): Result<Accounts, LedgerError> {
    var s :- SimRun(Sim(g, map[]), es);
    if Fits(g, s.topUps) then Success(UpFront(g, s.topUps)) else Failure(TopUpOverflow)
  }

  function ReplayEntries(g: Accounts, es: seq<Entry>): Result<Accounts, LedgerError> {
    var funded :- Reconcile(g, es);
    Apply(funded, es)
  }

  /** Stored transactions always move at least the minimum fee. */
  predicate PositiveDebits(es: seq<Entry>) {
    forall i :: 0 <= i < |es| && es[i].Debit? ==> es[i].amount > 0
  }

  /** `live` started with the credits `c`; `sim` has used `sim.topUps` of them so far. */
  ghost predicate AntsAhead(live: Accounts, sim: Sim, c: Amounts) {
    && live.Keys == sim.accounts.Keys + c.Keys
    && (forall a :: Balance(live, a) + Top(sim.topUps, a) == Balance(sim.accounts, a) + Top(c, a))
    && (forall a :: Top(sim.topUps, a) <= Top(c, a))
  }

  lemma {:induction false} TopUpsGrow(s: Sim, es: seq<Entry>, a: Address)
    requires SimRun(s, es).Success?
    ensures Top(s.topUps, a) <= Top(SimRun(s, es).value.topUps, a)
    ensures a in s.accounts ==> a in SimRun(s, es).value.accounts
    decreases es
  {
    if es != [] {
      TopUpsGrow(SimEntry(s, es[0]).value, es[1..], a);
    }
  }

  function Change(e: Entry): int {
    if e.Credit? then e.amount else 0 - e.amount
  }

  lemma EntryTouchesOne(accounts: Accounts, e: Entry)
    requires ApplyEntry(accounts, e).Success?
    ensures var l := ApplyEntry(accounts, e).value;
      && l.Keys == accounts.Keys + {e.who}
      && Balance(l, e.who) == Balance(accounts, e.who) + Change(e)
      && forall b :: b != e.who ==> Balance(l, b) == Balance(accounts, b)
  {
  }

  lemma SimTouchesOne(sim: Sim, e: Entry)
    requires SimEntry(sim, e).Success?
    ensures var s := SimEntry(sim, e).value;
      && s.accounts.Keys == sim.accounts.Keys + {e.who}
      && Balance(s.accounts, e.who) - Top(s.topUps, e.who) ==
         Balance(sim.accounts, e.who) - Top(sim.topUps, e.who) + Change(e)
      && (s.topUps == sim.topUps || (Balance(s.accounts, e.who) == 0 &&
          s.topUps == sim.topUps[e.who := Top(s.topUps, e.who)]))
      && forall b :: b != e.who ==> Balance(s.accounts, b) == Balance(sim.accounts, b)
  {
  }

  lemma EntryKeepsAhead(live: Accounts, sim: Sim, c: Amounts, e: Entry)
    requires AntsAhead(live, sim, c)
    requires ApplyEntry(live, e).Success? && SimEntry(sim, e).Success?
    ensures AntsAhead(ApplyEntry(live, e).value, SimEntry(sim, e).value, c)
  {
    var l, s := ApplyEntry(live, e).value, SimEntry(sim, e).value;
    EntryTouchesOne(live, e);
    SimTouchesOne(sim, e);
    forall b
      ensures Balance(l, b) + Top(s.topUps, b) == Balance(s.accounts, b) + Top(c, b)
      ensures Top(s.topUps, b) <= Top(c, b)
    {
      EntryKeepsAheadAt(live, sim, c, e, b);
    }
  }

  lemma EntryKeepsAheadAt(live: Accounts, sim: Sim, c: Amounts, e: Entry, b: Address)
    requires AntsAhead(live, sim, c)
    requires ApplyEntry(live, e).Success? && SimEntry(sim, e).Success?
    ensures
      var l, s := ApplyEntry(live, e).value, SimEntry(sim, e).value;
      && Balance(l, b) + Top(s.topUps, b) == Balance(s.accounts, b) + Top(c, b)
      && Top(s.topUps, b) <= Top(c, b)
  {
    EntryTouchesOne(live, e);
    SimTouchesOne(sim, e);
    assert Balance(live, b) + Top(sim.topUps, b) == Balance(sim.accounts, b) + Top(c, b);
    assert Top(sim.topUps, b) <= Top(c, b);
  }

  lemma EntryEnoughCredit(live: Accounts, sim: Sim, c: Amounts, e: Entry)
    requires AntsAhead(live, sim, c) && (e.Debit? ==> e.amount > 0)
    requires SimEntry(sim, e).Success?
    requires Top(SimEntry(sim, e).value.topUps, e.who) <= Top(c, e.who)
    ensures ApplyEntry(live, e).Success? || ApplyEntry(live, e) == Failure(CreditOverflow)
  {
    assert Balance(live, e.who) + Top(sim.topUps, e.who) == Balance(sim.accounts, e.who) + Top(c, e.who);
  }

  lemma EntryNeedsCredit(live: Accounts, sim: Sim, c: Amounts, e: Entry)
    requires AntsAhead(live, sim, c) && Top(c, e.who) <= U64_MAX
    requires ApplyEntry(live, e).Success?
    ensures SimEntry(sim, e).Success?
  {
    assert Balance(live, e.who) + Top(sim.topUps, e.who) == Balance(sim.accounts, e.who) + Top(c, e.who);
    assert Top(sim.topUps, e.who) <= Top(c, e.who);
  }

  /** Enough credit up front: the real run follows the simulation entry by entry. */
  lemma {:induction false} EnoughCreditReplays(live: Accounts, sim: Sim, c: Amounts, es: seq<Entry>)
    requires AntsAhead(live, sim, c) && PositiveDebits(es)
    requires SimRun(sim, es).Success?
    requires forall a :: Top(SimRun(sim, es).value.topUps, a) <= Top(c, a)
    ensures
      || Apply(live, es) == Failure(CreditOverflow)
      || (Apply(live, es).Success? && AntsAhead(Apply(live, es).value, SimRun(sim, es).value, c))
    decreases es
  {
    if es != [] {
      var e, rest := es[0], es[1..];
      var next := SimEntry(sim, e).value;
      TopUpsGrow(next, rest, e.who);
      EntryEnoughCredit(live, sim, c, e);
      var r := ApplyEntry(live, e);
      if r.Success? {
        EntryKeepsAhead(live, sim, c, e);
        EnoughCreditReplays(r.value, next, c, rest);
      }
    }
  }

  /** A real run that succeeds never used more than the simulation had to add. */
  lemma {:induction false} ReplayNeedsCredit(live: Accounts, sim: Sim, c: Amounts, es: seq<Entry>)
    requires AntsAhead(live, sim, c)
    requires forall a :: Top(c, a) <= U64_MAX
    requires Apply(live, es).Success?
    ensures SimRun(sim, es).Success?
    ensures AntsAhead(Apply(live, es).value, SimRun(sim, es).value, c)
    decreases es
  {
    if es != [] {
      var e, rest := es[0], es[1..];
      EntryNeedsCredit(live, sim, c, e);
      EntryKeepsAhead(live, sim, c, e);
      ReplayNeedsCredit(ApplyEntry(live, e).value, SimEntry(sim, e).value, c, rest);
    }
  }

  /** No address could leave 64 bits even if it kept everything it ever owned, spent or
      received. A caller can compute this from genesis and history alone. */
  ghost predicate Bounded(g: Accounts, es: seq<Entry>) {
    forall a :: Balance(g, a) + Debits(es, a) + Credits(es, a) <= U64_MAX
  }

  lemma {:induction false} SimulationSucceeds(s: Sim, es: seq<Entry>)
    requires forall a :: Balance(s.accounts, a) + Credits(es, a) <= U64_MAX
    requires forall a :: Top(s.topUps, a) + Debits(es, a) <= U64_MAX
    ensures SimRun(s, es).Success?
    ensures forall a :: Top(SimRun(s, es).value.topUps, a) <= Top(s.topUps, a) + Debits(es, a)
    decreases es
  {
    if es != [] {
      var e, rest := es[0], es[1..];
      assert Balance(s.accounts, e.who) + Credits(es, e.who) <= U64_MAX;
      assert Top(s.topUps, e.who) + Debits(es, e.who) <= U64_MAX;
      var r := SimEntry(s, e);
      assert r.Success?;
      var next := r.value;
      forall a
        ensures Balance(next.accounts, a) + Credits(rest, a) <= U64_MAX
        ensures Top(next.topUps, a) + Debits(rest, a) <= Top(s.topUps, a) + Debits(es, a) <= U64_MAX
      {
        assert Balance(s.accounts, a) + Credits(es, a) <= U64_MAX;
      }
      SimulationSucceeds(next, rest);
    }
  }

  lemma {:induction false} TopUpsHaveAccounts(s: Sim, es: seq<Entry>)
    requires SimRun(s, es).Success?
    requires s.topUps.Keys <= s.accounts.Keys && forall a :: a in s.topUps ==> s.topUps[a] > 0
    ensures var f := SimRun(s, es).value;
      f.topUps.Keys <= f.accounts.Keys && forall a :: a in f.topUps ==> f.topUps[a] > 0
    decreases es
  {
    if es != [] {
      TopUpsHaveAccounts(SimEntry(s, es[0]).value, es[1..]);
    }
  }

  /** Main result: reconcile-then-replay never meets a missing sender or an underflow,
      whatever the genesis and history; only a 64-bit overflow can stop it. */
  lemma ReplayNeverUnderflows(g: Accounts, es: seq<Entry>)
    requires PositiveDebits(es)
    ensures ReplayEntries(g, es).Failure? ==>
              ReplayEntries(g, es).error in {DebitOverflow, CreditOverflow, TopUpOverflow}
    ensures ReplayEntries(g, es).Success? ==>
      && SimRun(Sim(g, map[]), es).Success?
      && AntsAhead(ReplayEntries(g, es).value, SimRun(Sim(g, map[]), es).value, SimRun(Sim(g, map[]), es).value.topUps)
  {
    var start := Sim(g, map[]);
    SimulationErrors(start, es);
    if SimRun(start, es).Success? {
      var t := SimRun(start, es).value.topUps;
      if Fits(g, t) {
        assert AntsAhead(UpFront(g, t), start, t);
        EnoughCreditReplays(UpFront(g, t), start, t, es);
      }
    }
  }

  lemma {:induction false} SimulationErrors(s: Sim, es: seq<Entry>)
    ensures SimRun(s, es).Failure? ==> SimRun(s, es).error in {DebitOverflow, CreditOverflow, TopUpOverflow}
    decreases es
  {
    if es != [] && SimEntry(s, es[0]).Success? {
      SimulationErrors(SimEntry(s, es[0]).value, es[1..]);
    }
  }

  /** Within the bound the simulation succeeds and its top-ups fit up front. */
  lemma BoundedSimulation(g: Accounts, es: seq<Entry>)
    requires Bounded(g, es)
    ensures SimRun(Sim(g, map[]), es).Success?
    ensures
      var sim := SimRun(Sim(g, map[]), es).value;
      && sim.topUps.Keys <= sim.accounts.Keys
      && Fits(g, sim.topUps)
      && (forall a :: Top(sim.topUps, a) <= Debits(es, a))
      && (forall a :: Balance(g, a) + Top(sim.topUps, a) + Credits(es, a) <= U64_MAX)
  {
    var start := Sim(g, map[]);
    forall a
      ensures Balance(g, a) + Credits(es, a) <= U64_MAX && Debits(es, a) <= U64_MAX
    {
      assert Balance(g, a) + Debits(es, a) + Credits(es, a) <= U64_MAX;
    }
    SimulationSucceeds(start, es);
    TopUpsHaveAccounts(start, es);
    var sim := SimRun(start, es).value;
    forall a ensures Top(sim.topUps, a) <= Debits(es, a) &&
      Balance(g, a) + Top(sim.topUps, a) + Credits(es, a) <= U64_MAX {
      assert Balance(g, a) + Debits(es, a) + Credits(es, a) <= U64_MAX;
    }
    forall a | a in sim.topUps ensures Balance(g, a) + sim.topUps[a] <= U64_MAX {
      assert Balance(g, a) + Top(sim.topUps, a) + Credits(es, a) <= U64_MAX;
    }
  }

  /** Main result: within the bound, replay succeeds, has the simulation's accounts and
      every one of its balances, and tops nobody up by more than it ever spent. */
  lemma ReplayAgreesWithSimulation(g: Accounts, es: seq<Entry>)
    requires PositiveDebits(es) && Bounded(g, es)
    ensures SimRun(Sim(g, map[]), es).Success? && ReplayEntries(g, es).Success?
    ensures
      var sim, live := SimRun(Sim(g, map[]), es).value, ReplayEntries(g, es).value;
      && live.Keys == sim.accounts.Keys
      && (forall a :: Balance(live, a) == Balance(sim.accounts, a))
      && (forall a :: Top(sim.topUps, a) <= Debits(es, a))
  {
    BoundedSimulation(g, es);
    var start := Sim(g, map[]);
    var topUps := SimRun(start, es).value.topUps;
    assert AntsAhead(UpFront(g, topUps), start, topUps);
    EnoughCreditReplays(UpFront(g, topUps), start, topUps, es);
    NoCreditOverflow(UpFront(g, topUps), es);
  }

  // --- the top-up of one address -----------------------------------------------

  function MinInt(x: int, y: int): int {
    if x < y then x else y
  }

  /** What one entry does to one balance. */
  function ChangeTo(e: Entry, a: Address): int {
    if e.who == a then Change(e) else 0
  }

  /** The lowest point of one address's running balance, if nothing stopped it at zero. */
  function Low(balance: int, es: seq<Entry>, a: Address): int
    decreases es
  {
    if es == [] then balance else MinInt(balance, Low(balance + ChangeTo(es[0], a), es[1..], a))
  }

  /** How far the running balance would go below zero. */
  function Shortfall(balance: int, es: seq<Entry>, a: Address): nat {
    if Low(balance, es, a) < 0 then 0 - Low(balance, es, a) else 0
  }

  /** Starting higher lifts every point. */
  lemma {:induction false} LowShifts(balance: int, es: seq<Entry>, a: Address, k: int)
    ensures Low(balance + k, es, a) == Low(balance, es, a) + k
    ensures Low(balance, es, a) <= balance
    decreases es
  {
    if es != [] {
      LowShifts(balance + ChangeTo(es[0], a), es[1..], a, k);
      assert balance + k + ChangeTo(es[0], a) == balance + ChangeTo(es[0], a) + k;
    }
  }

  /** It sinks at most by the debits, and by all of them without credits. */
  lemma {:induction false} LowWithinDebits(balance: int, es: seq<Entry>, a: Address)
    ensures Low(balance, es, a) >= balance - Debits(es, a)
    ensures Credits(es, a) == 0 ==> Low(balance, es, a) == balance - Debits(es, a)
    decreases es
  {
    if es != [] {
      LowWithinDebits(balance + ChangeTo(es[0], a), es[1..], a);
    }
  }

  lemma SimMoves(s: Sim, e: Entry, a: Address)
    requires SimEntry(s, e).Success?
    ensures
      var t, moved := SimEntry(s, e).value, Balance(s.accounts, a) + ChangeTo(e, a);
      && Balance(t.accounts, a) == (if moved < 0 then 0 else moved)
      && Top(t.topUps, a) == Top(s.topUps, a) + if moved < 0 then 0 - moved else 0
  {
  }

  /** Main result: the reconciliation tops an address up by exactly the depth to which its
      running balance would have sunk below zero. */
  lemma {:induction false} TopUpIsDeepestShortfall(s: Sim, es: seq<Entry>, a: Address)
    requires SimRun(s, es).Success?
    ensures Top(SimRun(s, es).value.topUps, a) == Top(s.topUps, a) + Shortfall(Balance(s.accounts, a), es, a)
    decreases es
  {
    if es != [] {
      var moved := Balance(s.accounts, a) + ChangeTo(es[0], a);
      SimMoves(s, es[0], a);
      TopUpIsDeepestShortfall(SimEntry(s, es[0]).value, es[1..], a);
      if moved < 0 {
        LowShifts(moved, es[1..], a, 0 - moved);
      }
    }
  }

  /** A history that applies never sinks anybody below zero. */
  lemma {:induction false} AppliedStaysAfloat(accounts: Accounts, es: seq<Entry>, a: Address)
    requires Apply(accounts, es).Success?
    ensures Low(Balance(accounts, a), es, a) >= 0
    decreases es
  {
    if es != [] {
      AppliedStaysAfloat(ApplyEntry(accounts, es[0]).value, es[1..], a);
    }
  }

  lemma {:induction false} AfloatApplies(accounts: Accounts, es: seq<Entry>)
    requires PositiveDebits(es) && forall a :: Balance(accounts, a) + Credits(es, a) <= U64_MAX
    requires forall a :: Low(Balance(accounts, a), es, a) >= 0
    ensures Apply(accounts, es).Success?
    decreases es
  {
    if es != [] {
      var e := es[0];
      assert Low(Balance(accounts, e.who), es, e.who) >= 0 && Balance(accounts, e.who) + Credits(es, e.who) <= U64_MAX;
      LowShifts(Balance(accounts, e.who) + ChangeTo(e, e.who), es[1..], e.who, 0);
      var next := ApplyEntry(accounts, e).value;
      forall a
        ensures Low(Balance(next, a), es[1..], a) >= 0
        ensures Balance(next, a) + Credits(es[1..], a) <= U64_MAX
      {
        assert Low(Balance(accounts, a), es, a) >= 0 && Balance(accounts, a) + Credits(es, a) <= U64_MAX;
      }
      AfloatApplies(next, es[1..]);
    }
  }

  /** Main result: when no credit can leave 64 bits, a history applies if and only if nobody's running
      balance ever falls below zero, whatever state it starts from. */
  lemma AppliesIffAfloat(accounts: Accounts, es: seq<Entry>)
    requires PositiveDebits(es) && forall a :: Balance(accounts, a) + Credits(es, a) <= U64_MAX
    ensures Apply(accounts, es).Success? <==> forall a :: Low(Balance(accounts, a), es, a) >= 0
  {
    if Apply(accounts, es).Success? {
      forall a ensures Low(Balance(accounts, a), es, a) >= 0 {
        AppliedStaysAfloat(accounts, es, a);
      }
    } else if forall a :: Low(Balance(accounts, a), es, a) >= 0 {
      AfloatApplies(accounts, es);
    }
  }

  /** Main result: a replay gives every address its starting balance plus its credits minus
      its debits, plus its deepest shortfall. */
  lemma ReplayedBalance(g: Accounts, es: seq<Entry>, a: Address)
    requires PositiveDebits(es) && Bounded(g, es)
    ensures ReplayEntries(g, es).Success?
    ensures Balance(ReplayEntries(g, es).value, a) ==
            Balance(g, a) + Credits(es, a) - Debits(es, a) + Shortfall(Balance(g, a), es, a)
  {
    ReplayAgreesWithSimulation(g, es);
    TopUpIsDeepestShortfall(Sim(g, map[]), es, a);
    ApplyBalance(UpFront(g, SimRun(Sim(g, map[]), es).value.topUps), es, a);
  }

  /** Main result: up-front credits `c` make the history replay if and only if they
      cover the recorded top-up of every address. So the top-ups are the least ones. */
  lemma TopUpsAreLeast(g: Accounts, es: seq<Entry>, c: Amounts)
    requires PositiveDebits(es) && SimRun(Sim(g, map[]), es).Success? && Fits(g, c)
    requires forall a :: Balance(g, a) + Top(c, a) + Credits(es, a) <= U64_MAX
    ensures Apply(UpFront(g, c), es).Success? <==>
            forall a :: Top(SimRun(Sim(g, map[]), es).value.topUps, a) <= Top(c, a)
  {
    var start := Sim(g, map[]);
    assert AntsAhead(UpFront(g, c), start, c);
    if Apply(UpFront(g, c), es).Success? {
      forall a ensures Top(c, a) <= U64_MAX {
        assert Balance(g, a) + Top(c, a) + Credits(es, a) <= U64_MAX;
      }
      ReplayNeedsCredit(UpFront(g, c), start, c, es);
    } else if forall a :: Top(SimRun(start, es).value.topUps, a) <= Top(c, a) {
      EnoughCreditReplays(UpFront(g, c), start, c, es);
      NoCreditOverflow(UpFront(g, c), es);
    }
  }

  /** A history that was solvent when it happened is replayed without any top-up. */
  lemma SolventHistoryUntouched(g: Accounts, es: seq<Entry>)
    requires Apply(g, es).Success?
    ensures Reconcile(g, es) == Success(g)
    ensures ReplayEntries(g, es) == Apply(g, es)
  {
    var start := Sim(g, map[]);
    assert AntsAhead(g, start, map[]);
    ReplayNeedsCredit(g, start, map[], es);
    TopUpsHaveAccounts(start, es);
    var t := SimRun(start, es).value.topUps;
    forall a ensures a !in t {
      assert Top(t, a) <= Top(map[], a);
    }
    assert t == map[];
    assert UpFront(g, map[]) == g;
  }

  /** One account in the real run against the simulated one, with `r` of its top-up unused. */
  ghost predicate RecordAhead(l: Account, s: Account, r: int) {
    && 0 <= r
    && l.ants == s.ants + r
    && s.activated <= l.activated <= s.activated + r
    && s.activated <= s.ants
    && l.totalActivated == SatAdd(s.totalActivated, r)
    && l.sessions == s.sessions
    && l.assets == s.assets
  }

  ghost predicate RecordsAhead(live: Accounts, sim: Sim, c: Amounts) {
    forall a :: RecordAhead(Get(live, a), Get(sim.accounts, a), Top(c, a) - Top(sim.topUps, a))
  }

  lemma SpendKeepsRecord(l: Account, s: Account, r: nat, d: nat)
    requires RecordAhead(l, s, r) && d <= l.ants
    ensures d <= s.ants ==> RecordAhead(Spend(l, d), Spend(s, d), r)
    ensures s.ants < d ==> RecordAhead(Spend(l, d), Spend(TopUp(s, d - s.ants), d), r - (d - s.ants))
  {
  }

  lemma EntryKeepsRecords(live: Accounts, sim: Sim, c: Amounts, e: Entry)
    requires RecordsAhead(live, sim, c)
    requires ApplyEntry(live, e).Success? && SimEntry(sim, e).Success?
    requires Top(SimEntry(sim, e).value.topUps, e.who) <= Top(c, e.who)
    ensures RecordsAhead(ApplyEntry(live, e).value, SimEntry(sim, e).value, c)
  {
    match e
    case Debit(a, d) => DebitKeepsRecords(live, sim, c, a, d);
    case Credit(a, d) =>
      assert RecordAhead(Get(live, a), Get(sim.accounts, a), Top(c, a) - Top(sim.topUps, a));
      PatchRecords(live, sim, c, a, Receive(Get(live, a), d), SimEntry(sim, e).value);
  }

  lemma DebitKeepsRecords(live: Accounts, sim: Sim, c: Amounts, a: Address, d: nat)
    requires RecordsAhead(live, sim, c)
    requires a in live && d <= live[a].ants
    requires SimEntry(sim, Debit(a, d)).Success?
    requires Top(SimEntry(sim, Debit(a, d)).value.topUps, a) <= Top(c, a)
    ensures RecordsAhead(live[a := Spend(live[a], d)], SimEntry(sim, Debit(a, d)).value, c)
  {
    var y, r := Get(sim.accounts, a), Top(c, a) - Top(sim.topUps, a);
    assert RecordAhead(Get(live, a), y, r);
    SpendKeepsRecord(live[a], y, r, d);
    PatchRecords(live, sim, c, a, Spend(live[a], d), SimEntry(sim, Debit(a, d)).value);
  }

  lemma OtherRecordsStay(live: Accounts, sim: Sim, c: Amounts, a: Address, x: Account, s: Sim, b: Address)
    requires RecordsAhead(live, sim, c)
    requires b != a && s.accounts == sim.accounts[a := Get(s.accounts, a)]
    requires s.topUps == sim.topUps || s.topUps == sim.topUps[a := Top(s.topUps, a)]
    ensures RecordAhead(Get(live[a := x], b), Get(s.accounts, b), Top(c, b) - Top(s.topUps, b))
  {
    assert RecordAhead(Get(live, b), Get(sim.accounts, b), Top(c, b) - Top(sim.topUps, b));
    assert Get(s.accounts, b) == Get(sim.accounts, b) && Top(s.topUps, b) == Top(sim.topUps, b);
  }

  lemma PatchRecords(live: Accounts, sim: Sim, c: Amounts, a: Address, x: Account, s: Sim)
    requires RecordsAhead(live, sim, c)
    requires s.accounts == sim.accounts[a := Get(s.accounts, a)]
    requires s.topUps == sim.topUps || s.topUps == sim.topUps[a := Top(s.topUps, a)]
    requires RecordAhead(x, Get(s.accounts, a), Top(c, a) - Top(s.topUps, a))
    ensures RecordsAhead(live[a := x], s, c)
  {
    forall b ensures RecordAhead(Get(live[a := x], b), Get(s.accounts, b), Top(c, b) - Top(s.topUps, b)) {
      if b != a {
        OtherRecordsStay(live, sim, c, a, x, s, b);
      }
    }
  }

  lemma {:induction false} RunKeepsRecords(live: Accounts, sim: Sim, c: Amounts, es: seq<Entry>)
    requires RecordsAhead(live, sim, c)
    requires Apply(live, es).Success? && SimRun(sim, es).Success?
    requires forall a :: Top(SimRun(sim, es).value.topUps, a) <= Top(c, a)
    ensures RecordsAhead(Apply(live, es).value, SimRun(sim, es).value, c)
    decreases es
  {
    if es != [] {
      var e, rest := es[0], es[1..];
      TopUpsGrow(SimEntry(sim, e).value, rest, e.who);
      EntryKeepsRecords(live, sim, c, e);
      RunKeepsRecords(ApplyEntry(live, e).value, SimEntry(sim, e).value, c, rest);
    }
  }

  lemma UpFrontIsAhead(g: Accounts, c: Amounts)
    requires Fits(g, c) && forall a :: a in g ==> g[a].activated <= g[a].ants
    ensures RecordsAhead(UpFront(g, c), Sim(g, map[]), c)
  {
    forall a ensures RecordAhead(Get(UpFront(g, c), a), Get(g, a), Top(c, a) - Top(map[], a)) {
      assert Get(UpFront(g, c), a) == if a in c then TopUp(Get(g, a), c[a]) else Get(g, a);
      assert Get(g, a).activated <= Get(g, a).ants;
    }
  }

  /** Main result: if no genesis account has more activated than owned, replay and the
      simulation end in the same accounts, field for field. */
  lemma ReplayIsSimulation(g: Accounts, es: seq<Entry>)
    requires PositiveDebits(es) && Bounded(g, es)
    requires forall a :: a in g ==> g[a].activated <= g[a].ants
    ensures SimRun(Sim(g, map[]), es).Success?
    ensures ReplayEntries(g, es) == Success(SimRun(Sim(g, map[]), es).value.accounts)
  {
    ReplayAgreesWithSimulation(g, es);
    var start := Sim(g, map[]);
    var sim := SimRun(start, es).value;
    var funded := UpFront(g, sim.topUps);
    UpFrontIsAhead(g, sim.topUps);
    RunKeepsRecords(funded, start, sim.topUps, es);
    var live := Apply(funded, es).value;
    assert live.Keys == sim.accounts.Keys;
    forall a | a in live ensures live[a] == sim.accounts[a] {
      var none := Top(sim.topUps, a) - Top(sim.topUps, a);
      assert RecordAhead(Get(live, a), Get(sim.accounts, a), none);
    }
    assert live == sim.accounts;
  }
}
