/** The validator set and its voting shares (src/state.rs:50-161, 531-561). */
module Validators {
  import opened Ledger
  import opened Ordering
  import opened Sums

  const MAX_VALIDATORS := 2_100
  const ORGANIC_QUORUM := 21

  /** An account as the ranking sees it. */
  datatype Seat = Seat(address: Address, sessions: u64)

  /** More sessions first, then the smaller address. */
  predicate Outranks(x: Seat, y: Seat) {
    x.sessions > y.sessions || (x.sessions == y.sessions && LexLe(x.address, y.address))
  }

  /** The account map in the arbitrary order a hash map yields it. */
  ghost predicate Enumerates(order: seq<Address>, accounts: Accounts) {
    && (forall a :: a in accounts <==> a in order)
    && forall i, j :: 0 <= i < j < |order| ==> order[i] != order[j]
  }

  function EligibleSeats(accounts: Accounts, order: seq<Address>, bootstrap: set<Address>, wanted: bool): seq<Seat> {
    if order == [] then []
    else
      var rest := EligibleSeats(accounts, order[1..], bootstrap, wanted);
      var a := order[0];
      if a in accounts && accounts[a].sessions >= MIN_SESSIONS_FOR_ANET && (a in bootstrap) == wanted
      then [Seat(a, accounts[a].sessions)] + rest else rest
  }

  function Take<T>(s: seq<T>, n: nat): seq<T> {
    if |s| <= n then s else s[..n]
  }

  function Addresses(s: seq<Seat>): seq<Address> {
    if s == [] then [] else [s[0].address] + Addresses(s[1..])
  }

  function Ranked(seats: seq<Seat>): seq<Seat> {
    Sort(seats, Outranks)
  }

  function AsSet(s: seq<Address>): set<Address> {
    set a | a in s
  }

  /** `compute_validators_from_accounts`. */
  function PlainSeats(accounts: Accounts, order: seq<Address>): seq<Seat> {
    Take(Ranked(EligibleSeats(accounts, order, {}, false)), MAX_VALIDATORS)
  }

  /** `compute_active_validator_set`, before the addresses are taken. */
  function ActiveSeats(accounts: Accounts, order: seq<Address>, bootstrap: seq<Address>): seq<Seat> {
    var seeded := AsSet(bootstrap);
    var organic := Ranked(EligibleSeats(accounts, order, seeded, false));
    if |organic| >= ORGANIC_QUORUM then Take(organic, MAX_VALIDATORS)
    else
      var boot := Ranked(EligibleSeats(accounts, order, seeded, true));
      Take(organic + boot, MAX_VALIDATORS)
  }

  function ActiveValidatorSet(accounts: Accounts, order: seq<Address>, bootstrap: seq<Address>): seq<Address> {
    Addresses(ActiveSeats(accounts, order, bootstrap))
  }

  lemma OutranksIsOrder()
    ensures TotalPreorder(Outranks)
    ensures forall x, y :: Outranks(x, y) && Outranks(y, x) ==> x == y
  {
    forall x, y ensures Outranks(x, y) || Outranks(y, x) {
      LexTotal(x.address, y.address);
    }
    forall x, y, z | Outranks(x, y) && Outranks(y, z) ensures Outranks(x, z) {
      if x.sessions == y.sessions == z.sessions {
        LexTransitive(x.address, y.address, z.address);
      }
    }
    forall x, y | Outranks(x, y) && Outranks(y, x) ensures x == y {
      LexAntisymmetric(x.address, y.address);
    }
  }

  // --- an independent description --------------------------------------------

  /** Who may hold a seat of the wanted kind. */
  predicate Qualifies(accounts: Accounts, bootstrap: set<Address>, wanted: bool, x: Seat) {
    && x.address in accounts
    && x.sessions == accounts[x.address].sessions >= MIN_SESSIONS_FOR_ANET
    && (x.address in bootstrap) == wanted
  }

  /** All qualified seats, each once, strictly by rank. */
  ghost predicate IsRanking(s: seq<Seat>, accounts: Accounts, bootstrap: set<Address>, wanted: bool) {
    && (forall i, j :: 0 <= i < j < |s| ==> Outranks(s[i], s[j]) && s[i] != s[j])
    && forall x :: x in s <==> Qualifies(accounts, bootstrap, wanted, x)
  }

  lemma {:induction false} RankingUnique(s: seq<Seat>, t: seq<Seat>, accounts: Accounts, bootstrap: set<Address>,
                                         wanted: bool)
    requires IsRanking(s, accounts, bootstrap, wanted) && IsRanking(t, accounts, bootstrap, wanted)
    ensures s == t
  {
    OutranksIsOrder();
    forall x ensures x in s <==> x in t {
      assert x in s <==> Qualifies(accounts, bootstrap, wanted, x);
    }
    DistinctSameMultiset(s, t);
    SortedUnique(s, t, Outranks);
  }

  lemma {:induction false} DistinctCounts(s: seq<Seat>, x: Seat)
    requires forall i, j :: 0 <= i < j < |s| ==> s[i] != s[j]
    ensures multiset(s)[x] == if x in s then 1 else 0
  {
    if s != [] {
      assert s == [s[0]] + s[1..];
      DistinctCounts(s[1..], x);
    }
  }

  lemma DistinctSameMultiset(s: seq<Seat>, t: seq<Seat>)
    requires forall i, j :: 0 <= i < j < |s| ==> s[i] != s[j]
    requires forall i, j :: 0 <= i < j < |t| ==> t[i] != t[j]
    requires forall x :: x in s <==> x in t
    ensures multiset(s) == multiset(t)
  {
    forall x ensures multiset(s)[x] == multiset(t)[x] {
      DistinctCounts(s, x);
      DistinctCounts(t, x);
    }
  }

  lemma {:induction false} SeatsFromOrder(accounts: Accounts, order: seq<Address>, bootstrap: set<Address>,
                                          wanted: bool)
    requires forall i, j :: 0 <= i < j < |order| ==> order[i] != order[j]
    ensures var s := EligibleSeats(accounts, order, bootstrap, wanted);
      && (forall i, j :: 0 <= i < j < |s| ==> s[i] != s[j])
      && forall x :: x in s <==> Qualifies(accounts, bootstrap, wanted, x) && x.address in order
  {
    if order != [] {
      var a, rest := order[0], order[1..];
      SeatsFromOrder(accounts, rest, bootstrap, wanted);
      assert order == [a] + rest;
      assert a !in rest;
    }
  }

  lemma RankedIsRanking(accounts: Accounts, order: seq<Address>, bootstrap: set<Address>, wanted: bool)
    requires Enumerates(order, accounts)
    ensures IsRanking(Ranked(EligibleSeats(accounts, order, bootstrap, wanted)), accounts, bootstrap, wanted)
  {
    var s := EligibleSeats(accounts, order, bootstrap, wanted);
    var r := Ranked(s);
    OutranksIsOrder();
    SeatsFromOrder(accounts, order, bootstrap, wanted);
    SortSorts(s, Outranks);
    forall x ensures x in r <==> x in s {
      assert x in multiset(r) <==> x in multiset(s);
    }
    forall i, j | 0 <= i < j < |r| ensures r[i] != r[j] {
      if r[i] == r[j] {
        TwicePlaced(r, i, j);
        DistinctCounts(s, r[i]);
      }
    }
  }

  lemma TwicePlaced(r: seq<Seat>, i: nat, j: nat)
    requires i < j < |r| && r[i] == r[j]
    ensures multiset(r)[r[i]] >= 2
  {
    var tail := r[i + 1..];
    assert r == r[..i] + [r[i]] + tail;
    assert tail[j - i - 1] == r[i];
    assert multiset(r) == multiset(r[..i]) + multiset{r[i]} + multiset(tail);
  }

  /** Main result: the active set is the top 2100 of all organic accounts by rank, followed,
      exactly when fewer than 21 are organic, by ranked bootstrap seats; whatever ranking
      of the two kinds one starts from. */
  lemma ActiveSetIsTopRanked(accounts: Accounts, order: seq<Address>, bootstrap: seq<Address>, organic: seq<Seat>,
                             boot: seq<Seat>)
    requires Enumerates(order, accounts)
    requires IsRanking(organic, accounts, AsSet(bootstrap), false) && IsRanking(boot, accounts, AsSet(bootstrap), true)
    ensures ActiveSeats(accounts, order, bootstrap) ==
            Take(if |organic| < ORGANIC_QUORUM then organic + boot else organic, MAX_VALIDATORS)
  {
    var seeded := AsSet(bootstrap);
    RankedIsRanking(accounts, order, seeded, false);
    RankedIsRanking(accounts, order, seeded, true);
    RankingUnique(organic, Ranked(EligibleSeats(accounts, order, seeded, false)), accounts, seeded, false);
    RankingUnique(boot, Ranked(EligibleSeats(accounts, order, seeded, true)), accounts, seeded, true);
  }

  /** Main result: neither the map's iteration order nor the order or duplicates of the
      bootstrap list matter. */
  lemma ActiveSetIsDeterministic(accounts: Accounts, order: seq<Address>, other: seq<Address>,
                                 bootstrap: seq<Address>, list: seq<Address>)
    requires Enumerates(order, accounts) && Enumerates(other, accounts)
    requires AsSet(bootstrap) == AsSet(list)
    ensures ActiveValidatorSet(accounts, order, bootstrap) == ActiveValidatorSet(accounts, other, list)
  {
    var seeded := AsSet(bootstrap);
    var organic := Ranked(EligibleSeats(accounts, other, seeded, false));
    var boot := Ranked(EligibleSeats(accounts, other, seeded, true));
    RankedIsRanking(accounts, other, seeded, false);
    RankedIsRanking(accounts, other, seeded, true);
    ActiveSetIsTopRanked(accounts, order, bootstrap, organic, boot);
    ActiveSetIsTopRanked(accounts, other, list, organic, boot);
  }

  lemma NobodySeeded(accounts: Accounts)
    ensures AsSet([]) == {} && IsRanking([], accounts, {}, true)
  {
  }

  /** Main result: an empty bootstrap list gives the plain rule, in any iteration order. */
  lemma EmptyListGivesPlainRule(accounts: Accounts, order: seq<Address>, other: seq<Address>)
    requires Enumerates(order, accounts) && Enumerates(other, accounts)
    ensures ActiveValidatorSet(accounts, order, []) == Addresses(PlainSeats(accounts, other))
  {
    var organic := Ranked(EligibleSeats(accounts, other, {}, false));
    NobodySeeded(accounts);
    RankedIsRanking(accounts, other, {}, false);
    ActiveSetIsTopRanked(accounts, order, [], organic, []);
    assert organic + [] == organic;
  }

  // --- voting shares ----------------------------------------------------------

  function SessionWeight(): Seat -> nat {
    (s: Seat) => s.sessions
  }

  /** `voting_power_bps` of one seat. */
  function ShareBps(sessions: nat, weight: nat): nat {
    if weight > 0 then sessions * 10_000 / weight else 0
  }

  function ShareOf(weight: nat): Seat -> nat {
    (s: Seat) => ShareBps(s.sessions, weight)
  }

  lemma ShareIs(sessions: nat, weight: nat)
    ensures weight == 0 ==> ShareBps(sessions, weight) == 0
    ensures weight > 0 ==>
              var share := ShareBps(sessions, weight);
              share * weight <= sessions * 10_000 < (share + 1) * weight
  {
  }

  lemma OneMoreShare(weight: nat, share: nat, rest: nat, n: nat)
    ensures weight * (share + rest) == weight * share + weight * rest
    ensures weight * (n + 1) == weight * n + weight
  {
  }

  lemma {:induction false} SharesBound(seats: seq<Seat>, weight: nat)
    requires weight > 0
    ensures weight * SeqSum(seats, ShareOf(weight)) <= 10_000 * SeqSum(seats, SessionWeight())
    ensures weight * SeqSum(seats, ShareOf(weight)) + weight * |seats| >= 10_000 * SeqSum(seats, SessionWeight())
        + |seats|
  {
    if seats != [] {
      SharesBound(seats[1..], weight);
      var share, rest := ShareBps(seats[0].sessions, weight), SeqSum(seats[1..], ShareOf(weight));
      ShareParts(seats[0].sessions, weight);
      OneMoreShare(weight, share, rest, |seats| - 1);
      assert SeqSum(seats, ShareOf(weight)) == share + rest;
    }
  }

  lemma ShareParts(sessions: nat, weight: nat)
    requires weight > 0
    ensures weight * ShareBps(sessions, weight) <= sessions * 10_000
    ensures weight * ShareBps(sessions, weight) + weight >= sessions * 10_000 + 1
  {
  }

  /** Main result: with positive total weight the shares sum to at most 10000 basis points,
      and rounding loses less than one basis point a seat. */
  lemma SharesSumUp(seats: seq<Seat>)
    requires SeqSum(seats, SessionWeight()) > 0
    ensures var w := SeqSum(seats, SessionWeight());
      10_000 - |seats| < SeqSum(seats, ShareOf(w)) <= 10_000
  {
    var w := SeqSum(seats, SessionWeight());
    var total := SeqSum(seats, ShareOf(w));
    SharesBound(seats, w);
    assert |seats| > 0;
    AtMost(w, total, 10_000);
    assert w * (total + |seats|) == w * total + w * |seats|;
    AtLeastPlus(w, total + |seats|, 10_000);
  }

  lemma AtMost(w: nat, x: nat, y: nat)
    requires w > 0 && w * x <= y * w
    ensures x <= y
  {
    if y + 1 <= x {
      Times(w, y + 1, x);
    }
  }

  lemma AtLeastPlus(w: nat, x: nat, y: nat)
    requires w > 0 && w * x > y * w
    ensures x > y
  {
    if x <= y {
      Times(w, x, y);
    }
  }

  lemma Times(w: nat, x: nat, y: nat)
    requires x <= y
    ensures w * x <= w * y
  {
  }
}
