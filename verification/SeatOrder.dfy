/** Who sits where (src/state.rs:50-138), said of accounts and addresses: activity first, then the
    address; organic accounts before bootstrap ones; at most 2100 seats and a quorum of 21. */
module SeatOrder {
  import opened Ledger
  import opened Ordering
  import opened Validators

  /** More sessions, or as many and the smaller address. */
  ghost predicate Before(accounts: Accounts, a: Address, b: Address) {
    var x, y := Get(accounts, a).sessions, Get(accounts, b).sessions;
    x > y || (x == y && (ProperPrefix(a, b) || SmallerAtFirstDifference(a, b)))
  }

  /** The accounts with at least 1000 sessions that are, or are not, on the bootstrap list. */
  function Candidates(accounts: Accounts, bootstrap: seq<Address>, listed: bool): set<Address> {
    set a | a in accounts && accounts[a].sessions >= 1_000 && (a in bootstrap) == listed
  }

  lemma {:induction false} AddressesAt(s: seq<Seat>)
    ensures |Addresses(s)| == |s| && forall i :: 0 <= i < |s| ==> Addresses(s)[i] == s[i].address
  {
    if s != [] {
      AddressesAt(s[1..]);
    }
  }

  lemma RankedBefore(s: seq<Seat>, accounts: Accounts, bootstrap: seq<Address>, listed: bool, i: nat, j: nat)
    requires IsRanking(s, accounts, AsSet(bootstrap), listed) && i < j < |s|
    ensures Before(accounts, s[i].address, s[j].address)
  {
    assert s[i] in s && s[j] in s && s[i] != s[j] && Outranks(s[i], s[j]);
    assert Qualifies(accounts, AsSet(bootstrap), listed, s[i]) && Qualifies(accounts, AsSet(bootstrap), listed, s[j]);
    LexLtIs(s[i].address, s[j].address);
  }

  lemma RankedMembers(s: seq<Seat>, accounts: Accounts, bootstrap: seq<Address>, listed: bool)
    requires IsRanking(s, accounts, AsSet(bootstrap), listed)
    ensures forall a :: a in Candidates(accounts, bootstrap, listed) <==> exists i :: 0 <= i < |s| && s[i].address == a
    ensures |s| == |Candidates(accounts, bootstrap, listed)|
  {
    var all := Candidates(accounts, bootstrap, listed);
    forall a ensures a in all <==> exists i :: 0 <= i < |s| && s[i].address == a {
      if a in all {
        assert Qualifies(accounts, AsSet(bootstrap), listed, Seat(a, accounts[a].sessions));
        assert Seat(a, accounts[a].sessions) in s;
      }
      if i :| 0 <= i < |s| && s[i].address == a {
        assert s[i] in s;
        assert Qualifies(accounts, AsSet(bootstrap), listed, s[i]);
      }
    }
    forall i, j | 0 <= i < j < |s| ensures s[i].address != s[j].address {
      assert s[i] in s && s[j] in s && s[i] != s[j];
      assert Qualifies(accounts, AsSet(bootstrap), listed, s[i]) && Qualifies(accounts, AsSet(bootstrap), listed, s[j]);
    }
    AddressesAt(s);
    DistinctCount(Addresses(s), all);
  }

  lemma {:induction false} DistinctCount(s: seq<Address>, all: set<Address>)
    requires forall i, j :: 0 <= i < j < |s| ==> s[i] != s[j]
    requires forall a :: a in all <==> exists i :: 0 <= i < |s| && s[i] == a
    ensures |s| == |all|
  {
    if s == [] {
      assert all == {};
    } else {
      var rest := all - {s[0]};
      forall a ensures a in rest <==> exists i :: 0 <= i < |s[1..]| && s[1..][i] == a {
        if a in rest {
          var i :| 0 <= i < |s| && s[i] == a;
          assert s[1..][i - 1] == a;
        }
        if i :| 0 <= i < |s[1..]| && s[1..][i] == a {
          assert s[i + 1] == a;
        }
      }
      DistinctCount(s[1..], rest);
      assert s[0] in all;
      assert |all| == |rest| + 1;
    }
  }

  /** The two rankings behind a set of seats. */
  lemma Rankings(accounts: Accounts, order: seq<Address>, bootstrap: seq<Address>)
    returns (organic: seq<Seat>, boot: seq<Seat>)
    requires Enumerates(order, accounts)
    ensures IsRanking(organic, accounts, AsSet(bootstrap), false) && IsRanking(boot, accounts, AsSet(bootstrap), true)
    ensures ActiveValidatorSet(accounts, order, bootstrap) ==
            Addresses(Take(if |organic| < 21 then organic + boot else organic, 2_100))
  {
    organic := Ranked(EligibleSeats(accounts, order, AsSet(bootstrap), false));
    boot := Ranked(EligibleSeats(accounts, order, AsSet(bootstrap), true));
    RankedIsRanking(accounts, order, AsSet(bootstrap), false);
    RankedIsRanking(accounts, order, AsSet(bootstrap), true);
    ActiveSetIsTopRanked(accounts, order, bootstrap, organic, boot);
  }

  /** Seats `i` and `j` of the combined list. */
  lemma ListedBefore(organic: seq<Seat>, boot: seq<Seat>, accounts: Accounts, bootstrap: seq<Address>, i: nat, j: nat)
    requires IsRanking(organic, accounts, AsSet(bootstrap), false) && IsRanking(boot, accounts, AsSet(bootstrap), true)
    requires i < j < |organic + boot|
    ensures
      var a, b := (organic + boot)[i].address, (organic + boot)[j].address;
      && (a in bootstrap ==> b in bootstrap)
      && ((a in bootstrap <==> b in bootstrap) ==> Before(accounts, a, b))
  {
    var all := organic + boot;
    assert i < |organic| ==> all[i] in organic;
    assert i >= |organic| ==> all[i] in boot;
    assert j < |organic| ==> all[j] in organic;
    assert j >= |organic| ==> all[j] in boot;
    forall x ensures x in organic ==> x.address !in bootstrap {
      assert x in organic ==> Qualifies(accounts, AsSet(bootstrap), false, x);
    }
    forall x ensures x in boot ==> x.address in bootstrap {
      assert x in boot ==> Qualifies(accounts, AsSet(bootstrap), true, x);
    }
    if j < |organic| {
      RankedBefore(organic, accounts, bootstrap, false, i, j);
    } else if i >= |organic| {
      RankedBefore(boot, accounts, bootstrap, true, i - |organic|, j - |organic|);
    }
  }

  /** Main result: in whatever order the accounts are enumerated, no two seats are the same; organic
      accounts sit before bootstrap ones; and among either, an earlier seat has more sessions than a
      later one, or as many and the address that is smaller at the first difference. */
  lemma SeatsByActivity(accounts: Accounts, order: seq<Address>, bootstrap: seq<Address>, i: nat, j: nat)
    requires Enumerates(order, accounts) && i < j < |ActiveValidatorSet(accounts, order, bootstrap)|
    ensures
      var seats := ActiveValidatorSet(accounts, order, bootstrap);
      && (seats[i] in bootstrap ==> seats[j] in bootstrap)
      && ((seats[i] in bootstrap <==> seats[j] in bootstrap) ==> Before(accounts, seats[i], seats[j]))
      && seats[i] != seats[j]
  {
    var organic, boot := Rankings(accounts, order, bootstrap);
    var full := if |organic| < 21 then organic + boot else organic;
    AddressesAt(Take(full, 2_100));
    assert full[i] == (organic + boot)[i] && full[j] == (organic + boot)[j];
    ListedBefore(organic, boot, accounts, bootstrap, i, j);
  }

  /** The candidates are the front of the combined list and its back. */
  lemma WhoIsListed(organic: seq<Seat>, boot: seq<Seat>, accounts: Accounts, bootstrap: seq<Address>, full: seq<Seat>)
    requires IsRanking(organic, accounts, AsSet(bootstrap), false) && IsRanking(boot, accounts, AsSet(bootstrap), true)
    requires full == if |organic| < 21 then organic + boot else organic
    ensures
      var plain := Candidates(accounts, bootstrap, false);
      var wanted := if |plain| < 21 then plain + Candidates(accounts, bootstrap, true) else plain;
      |full| == |wanted| && forall a :: a in wanted <==> exists i :: 0 <= i < |full| && full[i].address == a
  {
    RankedMembers(organic, accounts, bootstrap, false);
    RankedMembers(boot, accounts, bootstrap, true);
    var plain, listed := Candidates(accounts, bootstrap, false), Candidates(accounts, bootstrap, true);
    if |organic| < 21 {
      assert plain !! listed;
      forall a ensures a in plain + listed <==> exists i :: 0 <= i < |full| && full[i].address == a {
        if a in plain {
          var i :| 0 <= i < |organic| && organic[i].address == a;
          assert full[i].address == a;
        }
        if a in listed {
          var i :| 0 <= i < |boot| && boot[i].address == a;
          assert full[|organic| + i].address == a;
        }
        if i :| 0 <= i < |full| && full[i].address == a {
          if i < |organic| {
            assert organic[i].address == a;
          } else {
            assert boot[i - |organic|].address == a;
          }
        }
      }
    }
  }

  lemma SeatsAre(full: seq<Seat>)
    ensures
      var seats := Addresses(Take(full, 2_100));
      && |seats| == (if |full| <= 2_100 then |full| else 2_100)
      && (forall j :: 0 <= j < |seats| ==> seats[j] == full[j].address)
      && forall j :: 0 <= j < |seats| ==> full[j].address in seats
  {
    AddressesAt(Take(full, 2_100));
  }

  /** Those in line for a seat: with fewer than 21 organic candidates all of them, otherwise the organic
      ones alone. */
  function InLine(accounts: Accounts, bootstrap: seq<Address>): set<Address> {
    var plain := Candidates(accounts, bootstrap, false);
    if |plain| < 21 then plain + Candidates(accounts, bootstrap, true) else plain
  }

  /** The combined list, and how it gives seats. */
  lemma LineUp(accounts: Accounts, order: seq<Address>, bootstrap: seq<Address>)
    returns (organic: seq<Seat>, boot: seq<Seat>, full: seq<Seat>)
    requires Enumerates(order, accounts)
    ensures IsRanking(organic, accounts, AsSet(bootstrap), false) && IsRanking(boot, accounts, AsSet(bootstrap), true)
    ensures full <= organic + boot && ActiveValidatorSet(accounts, order, bootstrap) == Addresses(Take(full, 2_100))
    ensures |full| == |InLine(accounts, bootstrap)|
    ensures forall a :: a in InLine(accounts, bootstrap) <==> exists i :: 0 <= i < |full| && full[i].address == a
  {
    organic, boot := Rankings(accounts, order, bootstrap);
    full := if |organic| < 21 then organic + boot else organic;
    WhoIsListed(organic, boot, accounts, bootstrap, full);
    RankedMembers(organic, accounts, bootstrap, false);
  }

  /** Main result: everybody in line is seated while there are at most 2100 of them, exactly 2100 of
      them beyond that, and nobody else. */
  lemma SeatsAreFilled(accounts: Accounts, order: seq<Address>, bootstrap: seq<Address>)
    requires Enumerates(order, accounts)
    ensures
      var seats, line := ActiveValidatorSet(accounts, order, bootstrap), InLine(accounts, bootstrap);
      && (forall a :: a in seats ==> a in line)
      && |seats| == (if |line| <= 2_100 then |line| else 2_100)
      && (|line| <= 2_100 ==> forall a :: a in line ==> a in seats)
  {
    var _, _, full := LineUp(accounts, order, bootstrap);
    SeatsAre(full);
    var seats := ActiveValidatorSet(accounts, order, bootstrap);
    forall j | 0 <= j < |seats| ensures seats[j] in InLine(accounts, bootstrap) {
      assert full[j].address == seats[j];
    }
    if |full| <= 2_100 {
      forall i | 0 <= i < |full| ensures full[i].address in seats {
        assert seats[i] == full[i].address;
      }
    }
  }

  /** Main result: whoever is in line without a seat comes after everybody who is seated: no organic
      account gives way to a bootstrap one, and among either kind the seated one has more sessions,
      or as many and the smaller address. */
  lemma PassedOver(accounts: Accounts, order: seq<Address>, bootstrap: seq<Address>, a: Address, b: Address)
    requires Enumerates(order, accounts) && a in InLine(accounts, bootstrap)
    requires a !in ActiveValidatorSet(accounts, order, bootstrap) && b in ActiveValidatorSet(accounts, order, bootstrap)
    ensures b in bootstrap ==> a in bootstrap
    ensures (a in bootstrap <==> b in bootstrap) ==> Before(accounts, b, a)
  {
    var organic, boot, full := LineUp(accounts, order, bootstrap);
    var seats := ActiveValidatorSet(accounts, order, bootstrap);
    SeatsAre(full);
    var i :| 0 <= i < |full| && full[i].address == a;
    var j :| 0 <= j < |seats| && seats[j] == b;
    assert (organic + boot)[i] == full[i] && (organic + boot)[j] == full[j];
    ListedBefore(organic, boot, accounts, bootstrap, j, i);
  }
}
