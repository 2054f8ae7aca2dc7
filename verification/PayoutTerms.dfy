/** On what terms the worker pays, whom, and what it writes down (worker.js:94-115, 296-354, 394-597), in plain
    conditions on the item, the books and what the item meets outside. */
module PayoutTerms {
  import opened PayoutWorker
  import Exec = PayoutExecutor
  import PayoutRuns
  import Text

  predicate FieldsGiven(item: Item) {
    item.requestId != "" && item.wallet != "" && item.amount > 0
  }

  predicate Repeated(s: State, item: Item) {
    item.requestId in s.requests || (item.swapRef != "" && item.swapRef in s.swaps)
  }

  predicate EligibleHolder(c: Config, out: Outside) {
    || c.skipEligibility
    || (out.eligibility.Known? && out.eligibility.sessions >= c.minSessions && out.eligibility.eligible)
  }

  /** The reserve covers its share of the liabilities; without liabilities the ratio counts as 999999. */
  predicate ReserveMet(c: Config) {
    if c.liabilities <= 0.0 then c.reserveRatioMin <= 999999.0 else c.reserve >= c.reserveRatioMin * c.liabilities
  }

  function PaidToday(s: State, item: Item, out: Outside): int {
    var key := (out.day, Text.AsciiUpper(item.wallet));
    if key in s.userPaid then s.userPaid[key] else 0
  }

  predicate Payable(c: Config, s: State, item: Item, out: Outside) {
    && FieldsGiven(item) && !Repeated(s, item) && EligibleHolder(c, out) && ReserveMet(c)
    && PaidToday(s, item, out) + item.amount <= c.userCap
    && s.hourlyPaid + item.amount <= c.hourlyCap
  }

  lemma UpperEmpty(s: string)
    ensures Text.AsciiUpper(s) == "" <==> s == ""
  {
  }

  lemma RatioMeets(c: Config)
    ensures ReserveRatio(c) < c.reserveRatioMin <==> !ReserveMet(c)
  {
    if c.liabilities > 0.0 {
      var q, l, m := c.reserve / c.liabilities, c.liabilities, c.reserveRatioMin;
      assert q * l == c.reserve;
      RealCompare(q, m, l);
    }
  }

  lemma RealCompare(x: real, y: real, z: real)
    requires z > 0.0
    ensures x < y <==> x * z < y * z
  {
  }

  /** Main result: a payout is attempted if and only if its fields are given, neither its request nor its swap was
      paid before, the holder is eligible, the reserve is met and both caps leave room; otherwise
      the first of these that fails, in this order, is noted. */
  lemma JudgeIs(c: Config, s: State, item: Item, out: Outside)
    ensures
      var note := Judge(c, s, item, out);
      && (note.NoNote? <==> Payable(c, s, item, out))
      && (note.InvalidFields? <==> !FieldsGiven(item))
      && (note.RequestProcessed? <==> FieldsGiven(item) && item.requestId in s.requests)
      && (note.RequestProcessed? || note.SwapProcessed? <==> FieldsGiven(item) && Repeated(s, item))
      && (note.WalletNotFound? || note.WalletNotEligible? <==>
            FieldsGiven(item) && !Repeated(s, item) && !EligibleHolder(c, out))
      && (note.WalletNotFound? ==> out.eligibility.Unknown?)
      && (note.WalletNotEligible? ==> out.eligibility.Known?)
      && (note.ReserveLow? <==>
            FieldsGiven(item) && !Repeated(s, item) && EligibleHolder(c, out) && !ReserveMet(c))
      && (note.UserCapExceeded? ==> PaidToday(s, item, out) + item.amount > c.userCap)
      && (note.HourlyCapExceeded? ==>
            PaidToday(s, item, out) + item.amount <= c.userCap && s.hourlyPaid + item.amount > c.hourlyCap)
      && !note.ExecutorError? && !note.MissingHash?
  {
    UpperEmpty(item.wallet);
    RatioMeets(c);
  }

  /** Main result: an item that may not be paid changes neither the books nor the executor. It fails for good when a
      field is missing, is a duplicate when it was paid before, and stays pending otherwise; and it
      is counted once, under its note. */
  lemma BlockedTurn(c: Config, e: Exec.Settings, p: Progress, item: Item, out: Outside)
    requires item.status.Pending? && !Payable(c, p.state, item, out)
    ensures
      var q, n, note := Turn(c, e, p, item, out), p.counts, Judge(c, p.state, item, out);
      && q.state == p.state && q.executor == p.executor
      && q.items == p.items + [item.(lastError := note,
           status := if !FieldsGiven(item) then Failed else if Repeated(p.state, item) then Duplicate else Pending)]
      && q.counts == n.(seen := n.seen + 1,
           invalid := n.invalid + if note.InvalidFields? then 1 else 0,
           failed := n.failed + if note.InvalidFields? then 1 else 0,
           duplicates := n.duplicates + if Repeated(p.state, item) && FieldsGiven(item) then 1 else 0,
           notFound := n.notFound + if note.WalletNotFound? then 1 else 0,
           notEligible := n.notEligible + if note.WalletNotEligible? then 1 else 0,
           reserveBlocked := n.reserveBlocked + if note.ReserveLow? then 1 else 0,
           userCapped := n.userCapped + if note.UserCapExceeded? then 1 else 0,
           hourlyCapped := n.hourlyCapped + if note.HourlyCapExceeded? then 1 else 0)
  {
    JudgeIs(c, p.state, item, out);
  }

  /** The books after a payout that got a hash: request id, swap reference, hour, and wallet of the day. */
  function Booked(s: State, item: Item, out: Outside): State {
    State(s.requests + [item.requestId],
          if item.swapRef == "" then s.swaps else s.swaps + [item.swapRef],
          s.windowStart,
          s.hourlyPaid + item.amount,
          s.userPaid[(out.day, Text.AsciiUpper(item.wallet)) := PaidToday(s, item, out) + item.amount])
  }

  /** With a hash the item is paid; without one it is one retry closer to failing. */
  function Answered(c: Config, item: Item, reply: Exec.Response): Item {
    if reply.Sent? && reply.txHash != "" then item.(status := Paid, txHash := reply.txHash)
    else
      item.(retries := item.retries + 1,
      lastError := if reply.Sent? then MissingHash else ExecutorError,
      status := if item.retries + 1 >= c.maxRetries then Failed else Pending)
  }

  lemma ConcludeIs(c: Config, p: Progress, item: Item, out: Outside, reply: Exec.Response)
    requires item.status.Pending?
    ensures
      var q, n, hash := Conclude(c, p, item, out, reply), p.counts, reply.Sent? && reply.txHash != "";
      && q.executor == p.executor
      && q.items == p.items + [Answered(c, item, reply)]
      && q.state == (if hash then Booked(p.state, item, out) else p.state)
      && q.counts == n.(attempted := n.attempted + 1, paid := n.paid + if hash then 1 else 0,
           failed := n.failed + if !hash && item.retries + 1 >= c.maxRetries then 1 else 0)
  {
  }

  lemma AttemptedTurn(c: Config, e: Exec.Settings, p: Progress, item: Item, out: Outside)
    requires item.status.Pending? && Payable(c, p.state, item, out)
    ensures
      var seen := p.(counts := p.counts.(seen := p.counts.seen + 1));
      var (x, reply) := Reply(c, e, p.executor, item, out);
      Turn(c, e, p, item, out) == Conclude(c, seen.(executor := x), item, out, reply)
  {
    JudgeIs(c, p.state, item, out);
  }

  /** Main result: an item that may be paid asks the executor once. If the answer has a hash it is paid with that hash
      and booked; if not it is one retry closer to failing, and the books stay. */
  lemma PayableTurn(c: Config, e: Exec.Settings, p: Progress, item: Item, out: Outside)
    requires item.status.Pending? && Payable(c, p.state, item, out)
    ensures
      var q, n, (x, reply) := Turn(c, e, p, item, out), p.counts, Reply(c, e, p.executor, item, out);
      var hash := reply.Sent? && reply.txHash != "";
      && q.executor == x
      && q.items == p.items + [Answered(c, item, reply)]
      && q.state == (if hash then Booked(p.state, item, out) else p.state)
      && q.counts == n.(seen := n.seen + 1, attempted := n.attempted + 1, paid := n.paid + if hash then 1 else 0,
           failed := n.failed + if !hash && item.retries + 1 >= c.maxRetries then 1 else 0)
  {
    var seen := p.(counts := p.counts.(seen := p.counts.seen + 1));
    var (x, reply) := Reply(c, e, p.executor, item, out);
    AttemptedTurn(c, e, p, item, out);
    ConcludeIs(c, seen.(executor := x), item, out, reply);
  }

  /** A reply that does not arrive reads as an error; one that does is the executor's; a dry run asks nobody. */
  lemma ReplyIs(c: Config, e: Exec.Settings, x: Exec.Executor, item: Item, out: Outside)
    ensures
      var (y, reply) := Reply(c, e, x, item, out);
      var asked := Exec.Execute(e, x, Exec.Payout(item.requestId, item.destination, item.amount, item.swapRef, "USDC",
        "BSC"), out.chain);
      if c.dryRun then y == x && reply == Exec.Sent("dryrun-" + item.requestId, false)
      else if out.network.Unreached? then y == x && reply.Error?
      else y == asked.0 && if out.network.Delivered? then reply == asked.1 else reply.Error?
  {
  }

  /** A new hour begins with nothing paid; within the hour nothing changes. */
  lemma WindowOpens(s: State, now: int)
    ensures OpenWindow(s, now) == if now - s.windowStart >= 3_600_000 then s.(windowStart := now, hourlyPaid := 0)
        else s
  {
  }

  /** One request, as the executor's chain sees it. */
  lemma ExecuteAppends(e: Exec.Settings, x: Exec.Executor, payout: Exec.Payout, chain: Exec.Chain)
    ensures
      var y := Exec.Execute(e, x, payout, chain).0;
      && x.transfers <= y.transfers && |y.transfers| <= |x.transfers| + 1
      && (|y.transfers| > |x.transfers| ==> y.transfers[|x.transfers|].payout == payout)
  {
  }

  /** A transfer made for an item: the destination, amount and keys are the item's own. */
  predicate PaidTo(t: Exec.Transfer, item: Item) {
    && t.payout.destination == item.destination && t.payout.amount == item.amount
    && t.payout.requestId == item.requestId && t.payout.swapRef == item.swapRef
  }

  /** Main result: a turn makes at most one transfer, and only for an item that may be paid, to that item's
      destination. */
  lemma TurnPaysItsItem(c: Config, e: Exec.Settings, p: Progress, item: Item, out: Outside)
    ensures
      var x, y := p.executor, Turn(c, e, p, item, out).executor;
      && x.transfers <= y.transfers && |y.transfers| <= |x.transfers| + 1
      && (|y.transfers| > |x.transfers| ==>
            && item.status.Pending? && !c.dryRun && Payable(c, p.state, item, out)
            && PaidTo(y.transfers[|x.transfers|], item))
  {
    if item.status.Pending? {
      if Payable(c, p.state, item, out) {
        PayableTurn(c, e, p, item, out);
        ReplyIs(c, e, p.executor, item, out);
        ExecuteAppends(e, p.executor, Payout(item), out.chain);
      } else {
        BlockedTurn(c, e, p, item, out);
      }
    }
  }

  ghost predicate ForSomeItem(t: Exec.Transfer, items: seq<Item>) {
    exists i :: 0 <= i < |items| && items[i].status.Pending? && FieldsGiven(items[i]) && PaidTo(t, items[i])
  }

  lemma ForLongerList(t: Exec.Transfer, items: seq<Item>, n: nat)
    requires n <= |items| && ForSomeItem(t, items[..n])
    ensures ForSomeItem(t, items)
  {
    var i :| 0 <= i < n && items[..n][i].status.Pending? && FieldsGiven(items[..n][i]) && PaidTo(t, items[..n][i]);
    assert items[i] == items[..n][i];
  }

  /** Every transfer beyond the first `from` is for an item of the list. */
  ghost predicate ForItemsFrom(x: Exec.Executor, from: nat, items: seq<Item>) {
    forall k :: from <= k < |x.transfers| ==> ForSomeItem(x.transfers[k], items)
  }

  lemma OneMoreTransfer(x: Exec.Executor, y: Exec.Executor, items: seq<Item>, from: nat)
    requires items != [] && ForItemsFrom(x, from, items[..|items| - 1])
    requires x.transfers <= y.transfers && |y.transfers| <= |x.transfers| + 1
    requires |y.transfers| > |x.transfers| ==>
               var item := items[|items| - 1];
               item.status.Pending? && FieldsGiven(item) && PaidTo(y.transfers[|x.transfers|], item)
    ensures ForItemsFrom(y, from, items)
  {
    forall k | from <= k < |y.transfers| ensures ForSomeItem(y.transfers[k], items) {
      if k < |x.transfers| {
        assert y.transfers[k] == x.transfers[k];
        ForLongerList(y.transfers[k], items, |items| - 1);
      }
    }
  }

  /** Main result: every transfer a cycle makes goes to the destination, and has the amount, of a pending item of
      its queue. */
  lemma {:induction false} CyclePaysItsQueue(c: Config, e: Exec.Settings, s: State, x: Exec.Executor, items: seq<Item>,
                                             outs: nat -> Outside)
    ensures
      var y := Cycle(c, e, s, x, items, outs).executor;
      && x.transfers <= y.transfers
      && ForItemsFrom(y, |x.transfers|, items)
    decreases |items|
  {
    if items != [] {
      var n := |items| - 1;
      var p := Cycle(c, e, s, x, items[..n], outs);
      CyclePaysItsQueue(c, e, s, x, items[..n], outs);
      TurnPaysItsItem(c, e, p, items[n], outs(n));
      OneMoreTransfer(p.executor, Turn(c, e, p, items[n], outs(n)).executor, items, |x.transfers|);
    }
  }

  /** Main result: an item newly marked paid in a live cycle was payable at its turn; so its holder was eligible, the
      reserve was met and both caps had room. */
  lemma PaidWasPayable(c: Config, e: Exec.Settings, s: State, x: Exec.Executor, items: seq<Item>, outs: nat -> Outside,
                       i: nat)
    requires i < |items| && items[i].status.Pending? && Cycle(c, e, s, x, items, outs).items[i].status.Paid?
    ensures Payable(c, Cycle(c, e, s, x, items[..i], outs).state, items[i], outs(i))
    decreases |items|
  {
    var n := |items| - 1;
    PayoutRuns.CycleAppends(c, e, s, x, items, outs);
    if i < n {
      var before := Cycle(c, e, s, x, items[..n], outs);
      assert Cycle(c, e, s, x, items, outs).items[i] == Cycle(c, e, s, x, items, outs).items[..n][i];
      PaidWasPayable(c, e, s, x, items[..n], outs, i);
      assert items[..n][..i] == items[..i];
    } else if !Payable(c, Cycle(c, e, s, x, items[..n], outs).state, items[n], outs(n)) {
      BlockedTurn(c, e, Cycle(c, e, s, x, items[..n], outs), items[n], outs(n));
    }
  }
}
