/** What the worker and the executor keep together over whole runs with crashes
    (worker.js:394-648, payout-executor/server.js:171-282). */
module PayoutRuns {
  import opened Sums
  import opened PayoutIngest
  import opened PayoutWorker
  import Exec = PayoutExecutor

  /** Only the outcome fields of a pending item change, and only once. */
  predicate Follows(before: Item, after: Item) {
    && after.(status := before.status, retries := before.retries, lastError := before.lastError,
        txHash := before.txHash) == before
    && (!before.status.Pending? ==> after == before)
    && before.retries <= after.retries <= before.retries + 1
  }

  lemma TurnAppends(c: Config, e: Exec.Settings, p: Progress, item: Item, out: Outside)
    ensures |Turn(c, e, p, item, out).items| == |p.items| + 1
    ensures Turn(c, e, p, item, out).items[..|p.items|] == p.items
    ensures Follows(item, Turn(c, e, p, item, out).items[|p.items|])
  {
  }

  /** The list so far is a prefix of the list after one more item. */
  lemma CycleAppends(c: Config, e: Exec.Settings, s: State, x: Exec.Executor, items: seq<Item>, outs: nat -> Outside)
    requires items != []
    ensures
      var n := |items| - 1;
      && Cycle(c, e, s, x, items, outs).items[..n] == Cycle(c, e, s, x, items[..n], outs).items
      && Follows(items[n], Cycle(c, e, s, x, items, outs).items[n])
  {
    var n := |items| - 1;
    TurnAppends(c, e, Cycle(c, e, s, x, items[..n], outs), items[n], outs(n));
  }

  lemma {:induction false} ItemsMoveOnlyFromPending(c: Config, e: Exec.Settings, s: State, x: Exec.Executor,
                                                    items: seq<Item>, outs: nat -> Outside, i: nat)
    requires i < |items|
    ensures Follows(items[i], Cycle(c, e, s, x, items, outs).items[i])
    decreases |items|
  {
    var n := |items| - 1;
    CycleAppends(c, e, s, x, items, outs);
    if i < n {
      ItemsMoveOnlyFromPending(c, e, s, x, items[..n], outs, i);
      assert Cycle(c, e, s, x, items, outs).items[i] == Cycle(c, e, s, x, items, outs).items[..n][i];
    }
  }

  /** The worker's books respect the caps. */
  ghost predicate WithinCaps(c: Config, s: State) {
    s.hourlyPaid <= c.hourlyCap && forall k :: k in s.userPaid ==> s.userPaid[k] <= c.userCap
  }

  lemma TurnKeepsCaps(c: Config, e: Exec.Settings, p: Progress, item: Item, out: Outside)
    requires WithinCaps(c, p.state)
    ensures WithinCaps(c, Turn(c, e, p, item, out).state)
  {
    var after := Turn(c, e, p, item, out).state;
    if after != p.state {
      assert after == Book(p.state, item, out);
    }
  }

  lemma {:induction false} CycleKeepsCaps(c: Config, e: Exec.Settings, s: State, x: Exec.Executor, items: seq<Item>,
                                          outs: nat -> Outside)
    requires WithinCaps(c, s)
    ensures WithinCaps(c, Cycle(c, e, s, x, items, outs).state)
    decreases |items|
  {
    if items != [] {
      var n := |items| - 1;
      CycleKeepsCaps(c, e, s, x, items[..n], outs);
      TurnKeepsCaps(c, e, Cycle(c, e, s, x, items[..n], outs), items[n], outs(n));
    }
  }

  /** What the cycle pays out, in all or for one wallet on one day. */
  function PaidNow(before: seq<Item>, after: seq<Item>): int
    requires |before| == |after|
    decreases |before|
  {
    if before == [] then 0
    else
      var n := |before| - 1;
      PaidNow(before[..n], after[..n]) + NewlyPaid(before[n], after[n])
  }

  function NewlyPaid(before: Item, after: Item): int {
    if before.status.Pending? && after.status.Paid? then before.amount else 0
  }

  function PaidNowTo(before: seq<Item>, after: seq<Item>, outs: nat -> Outside, key: DayKey): int
    requires |before| == |after|
    decreases |before|
  {
    if before == [] then 0
    else
      var n := |before| - 1;
      PaidNowTo(before[..n], after[..n], outs, key) +
      if (outs(n).day, Wallet(before[n])) == key then NewlyPaid(before[n], after[n]) else 0
  }

  lemma TurnBooks(c: Config, e: Exec.Settings, p: Progress, item: Item, out: Outside, key: DayKey)
    ensures
      var q := Turn(c, e, p, item, out);
      && |q.items| == |p.items| + 1
      && q.state.hourlyPaid == p.state.hourlyPaid + NewlyPaid(item, q.items[|p.items|])
      && UserPaid(q.state, key) ==
         UserPaid(p.state, key) + if (out.day, Wallet(item)) == key then NewlyPaid(item, q.items[|p.items|]) else 0
  {
  }

  /** Main result: the books grow by exactly what the cycle marked as paid, in total and for
      each wallet and day. */
  lemma {:induction false} BooksMatchPayouts(c: Config, e: Exec.Settings, s: State, x: Exec.Executor,
                                             items: seq<Item>, outs: nat -> Outside, key: DayKey)
    ensures
      var p := Cycle(c, e, s, x, items, outs);
      && p.state.hourlyPaid == s.hourlyPaid + PaidNow(items, p.items)
      && UserPaid(p.state, key) == UserPaid(s, key) + PaidNowTo(items, p.items, outs, key)
    decreases |items|
  {
    if items != [] {
      var n := |items| - 1;
      var before := Cycle(c, e, s, x, items[..n], outs);
      BooksMatchPayouts(c, e, s, x, items[..n], outs, key);
      TurnBooks(c, e, before, items[n], outs(n), key);
      TurnAppends(c, e, before, items[n], outs(n));
      assert Cycle(c, e, s, x, items, outs).items[..n] == before.items;
    }
  }

  function StillPending(before: seq<Item>, after: seq<Item>): nat
    requires |before| == |after|
    decreases |before|
  {
    if before == [] then 0
    else
      var n := |before| - 1;
      StillPending(before[..n], after[..n]) + if before[n].status.Pending? && after[n].status.Pending? then 1 else 0
  }

  /** Every pending item is counted once by what stopped it and once by where it ended. */
  lemma {:induction false} CountersAccountForQueue(c: Config, e: Exec.Settings, s: State, x: Exec.Executor,
                                                   items: seq<Item>, outs: nat -> Outside)
    ensures
      var p := Cycle(c, e, s, x, items, outs);
      var n := p.counts;
      && n.seen == n.invalid + n.duplicates + n.notFound + n.notEligible + n.reserveBlocked + n.userCapped
          + n.hourlyCapped + n.attempted
      && n.seen == n.paid + n.failed + n.duplicates + StillPending(items, p.items)
    decreases |items|
  {
    if items != [] {
      var n := |items| - 1;
      var before := Cycle(c, e, s, x, items[..n], outs);
      CountersAccountForQueue(c, e, s, x, items[..n], outs);
      TurnCounts(c, e, before, items[n], outs(n));
      TurnAppends(c, e, before, items[n], outs(n));
      assert Cycle(c, e, s, x, items, outs).items[..n] == before.items;
    }
  }

  function Stopped(n: Counters): nat {
    n.invalid + n.duplicates + n.notFound + n.notEligible + n.reserveBlocked + n.userCapped + n.hourlyCapped
      + n.attempted
  }

  function Ended(n: Counters): nat {
    n.paid + n.failed + n.duplicates
  }

  lemma TurnCounts(c: Config, e: Exec.Settings, p: Progress, item: Item, out: Outside)
    ensures
      var q := Turn(c, e, p, item, out);
      var one := if item.status.Pending? then 1 else 0;
      && |q.items| == |p.items| + 1
      && q.counts.seen == p.counts.seen + one
      && Stopped(q.counts) == Stopped(p.counts) + one
      && Ended(q.counts) == Ended(p.counts) +
                            if item.status.Pending? && !q.items[|p.items|].status.Pending? then 1 else 0
  {
  }

  /** A paid item has a transfer behind it. */
  ghost predicate ItemBacked(x: Exec.Executor, item: Item) {
    item.status.Paid? ==> Exec.Behind(x, item.requestId, item.swapRef, item.txHash)
  }

  ghost predicate QueueBacked(x: Exec.Executor, items: seq<Item>) {
    forall i :: 0 <= i < |items| ==> ItemBacked(x, items[i])
  }

  lemma TurnCallsOnce(c: Config, e: Exec.Settings, p: Progress, item: Item, out: Outside)
    ensures
      var x := Turn(c, e, p, item, out).executor;
      x == p.executor || x == Exec.Execute(e, p.executor, Payout(item), out.chain).0
  {
  }

  /** What every executor keeps. */
  ghost predicate Sound(x: Exec.Executor) {
    Exec.Balanced(x) && Exec.AllBacked(x)
  }

  lemma TurnKeepsSound(c: Config, e: Exec.Settings, p: Progress, item: Item, out: Outside)
    requires e.live && Sound(p.executor)
    ensures Sound(Turn(c, e, p, item, out).executor)
    ensures p.executor.transfers <= Turn(c, e, p, item, out).executor.transfers
  {
    TurnCallsOnce(c, e, p, item, out);
    Exec.StaysBalanced(e, p.executor, Payout(item), out.chain);
    Exec.StaysBacked(e, p.executor, Payout(item), out.chain);
  }

  lemma TurnBacksItem(c: Config, e: Exec.Settings, p: Progress, item: Item, out: Outside)
    requires e.live && !c.dryRun && Sound(p.executor) && ItemBacked(p.executor, item)
    ensures
      var q := Turn(c, e, p, item, out);
      |q.items| == |p.items| + 1 && ItemBacked(q.executor, q.items[|p.items|])
  {
    if item.status.Pending? && Judge(c, p.state, item, out).NoNote? {
      if out.network.Delivered? && Exec.Execute(e, p.executor, Payout(item), out.chain).1.Sent? {
        Exec.AnswersAreBacked(e, p.executor, Payout(item), out.chain);
      }
    }
  }

  lemma BackedLater(x: Exec.Executor, y: Exec.Executor, items: seq<Item>)
    requires QueueBacked(x, items) && x.transfers <= y.transfers
    ensures QueueBacked(y, items)
  {
    forall i | 0 <= i < |items| ensures ItemBacked(y, items[i]) {
      assert ItemBacked(x, items[i]);
      if items[i].status.Paid? {
        Exec.BehindLater(x, y, items[i].requestId, items[i].swapRef, items[i].txHash);
      }
    }
  }

  lemma QueueBackedAppend(x: Exec.Executor, items: seq<Item>, item: Item)
    requires QueueBacked(x, items) && ItemBacked(x, item)
    ensures QueueBacked(x, items + [item])
  {
  }

  lemma {:induction false} CycleKeepsSound(c: Config, e: Exec.Settings, s: State, x: Exec.Executor, items: seq<Item>,
                                           outs: nat -> Outside)
    requires e.live && Sound(x)
    ensures Sound(Cycle(c, e, s, x, items, outs).executor)
    ensures x.transfers <= Cycle(c, e, s, x, items, outs).executor.transfers
    decreases |items|
  {
    if items != [] {
      var n := |items| - 1;
      CycleKeepsSound(c, e, s, x, items[..n], outs);
      TurnKeepsSound(c, e, Cycle(c, e, s, x, items[..n], outs), items[n], outs(n));
    }
  }

  lemma {:induction false} CycleKeepsBacked(c: Config, e: Exec.Settings, s: State, x: Exec.Executor,
                                            items: seq<Item>, outs: nat -> Outside)
    requires e.live && !c.dryRun && Sound(x) && QueueBacked(x, items)
    ensures QueueBacked(Cycle(c, e, s, x, items, outs).executor, Cycle(c, e, s, x, items, outs).items)
    decreases |items|
  {
    if items != [] {
      var n := |items| - 1;
      var p, q := Cycle(c, e, s, x, items[..n], outs), Cycle(c, e, s, x, items, outs);
      assert forall i :: 0 <= i < n ==> items[..n][i] == items[i];
      CycleKeepsBacked(c, e, s, x, items[..n], outs);
      CycleKeepsSound(c, e, s, x, items[..n], outs);
      BackedLater(x, p.executor, items);
      TurnBacksItem(c, e, p, items[n], outs(n));
      TurnKeepsSound(c, e, p, items[n], outs(n));
      BackedLater(p.executor, q.executor, p.items);
      TurnAppends(c, e, p, items[n], outs(n));
      assert q.items == p.items + [q.items[n]];
      QueueBackedAppend(q.executor, p.items, q.items[n]);
    }
  }

  /** The two files and the executor's own. */
  datatype System = System(queue: seq<Item>, state: State, executor: Exec.Executor)

  /** Where a cycle dies: part-way through the items, between its two writes, or not at all. */
  datatype Crash = NoCrash | InItems(turns: nat) | BetweenWrites

  datatype Event =
    | RunCycle(now: int, clock: string, records: seq<Candidate>, outs: nat -> Outside, crash: Crash)
    | Enqueue(added: seq<Item>)
    | OtherClient(payout: Exec.Payout, chain: Exec.Chain)

  /** One `runWorker`: open the window, ingest, run the items, write the queue, write the state. */
  function RunOneCycle(c: Config, e: Exec.Settings, s: System, ev: Event): System
    requires ev.RunCycle?
  {
    var items, start := Ingest(s.queue, s.state, ev.records, ev.clock), OpenWindow(s.state, ev.now);
    var p := Cycle(c, e, start, s.executor, items, ev.outs);
    match ev.crash
    case NoCrash => System(p.items, p.state, p.executor)
    case BetweenWrites => System(p.items, s.state, p.executor)
    case InItems(k) =>
      if k > |items| then s else s.(executor := Cycle(c, e, start, s.executor, items[..k], ev.outs).executor)
  }

  function OnEvent(c: Config, e: Exec.Settings, s: System, ev: Event): System {
    match ev
    case RunCycle(_, _, _, _, _) => RunOneCycle(c, e, s, ev)
    case Enqueue(added) => s.(queue := s.queue + added)
    case OtherClient(payout, chain) => s.(executor := Exec.Execute(e, s.executor, payout, chain).0)
  }

  function OnEvents(c: Config, e: Exec.Settings, s: System, evs: seq<Event>): System
    decreases |evs|
  {
    if evs == [] then s else OnEvent(c, e, OnEvents(c, e, s, evs[..|evs| - 1]), evs[|evs| - 1])
  }

  predicate AllPending(items: seq<Item>) {
    forall i :: 0 <= i < |items| ==> items[i].status.Pending?
  }

  /** Only pending items are put in the queue by hand. */
  predicate FreshItems(evs: seq<Event>) {
    forall i :: 0 <= i < |evs| && evs[i].Enqueue? ==> AllPending(evs[i].added)
  }

  lemma AddedAreBacked(x: Exec.Executor, queue: seq<Item>, added: seq<Item>)
    requires QueueBacked(x, queue) && AllPending(added)
    ensures QueueBacked(x, queue + added)
  {
    forall i | 0 <= i < |queue + added| ensures ItemBacked(x, (queue + added)[i]) {
      if i < |queue| {
        assert ItemBacked(x, queue[i]);
      } else {
        assert added[i - |queue|].status.Pending?;
      }
    }
  }

  lemma IngestedAreBacked(x: Exec.Executor, queue: seq<Item>, s: State, records: seq<Candidate>, clock: string)
    requires QueueBacked(x, queue)
    ensures QueueBacked(x, Ingest(queue, s, records, clock))
  {
    var items := Ingest(queue, s, records, clock);
    IngestAddsOnlyNew(queue, s, records, clock);
    var added := items[|queue|..];
    assert items == queue + added;
    forall i | 0 <= i < |added| ensures added[i].status.Pending? {
      assert Unseen(items, s, |queue| + i);
    }
    AddedAreBacked(x, queue, added);
  }

  lemma EventKeepsSound(c: Config, e: Exec.Settings, s: System, ev: Event)
    requires e.live && Sound(s.executor)
    ensures Sound(OnEvent(c, e, s, ev).executor)
    ensures s.executor.transfers <= OnEvent(c, e, s, ev).executor.transfers
  {
    match ev
    case RunCycle(now, clock, records, outs, crash) =>
      var items := Ingest(s.queue, s.state, records, clock);
      CycleKeepsSound(c, e, OpenWindow(s.state, now), s.executor, items, outs);
      if crash.InItems? && crash.turns <= |items| {
        CycleKeepsSound(c, e, OpenWindow(s.state, now), s.executor, items[..crash.turns], outs);
      }
    case Enqueue(_) =>
    case OtherClient(payout, chain) =>
      Exec.StaysBalanced(e, s.executor, payout, chain);
      Exec.StaysBacked(e, s.executor, payout, chain);
  }

  lemma EventKeepsBacked(c: Config, e: Exec.Settings, s: System, ev: Event)
    requires e.live && !c.dryRun && Sound(s.executor) && QueueBacked(s.executor, s.queue)
    requires ev.Enqueue? ==> AllPending(ev.added)
    ensures QueueBacked(OnEvent(c, e, s, ev).executor, OnEvent(c, e, s, ev).queue)
  {
    EventKeepsSound(c, e, s, ev);
    if ev.RunCycle? && !ev.crash.InItems? {
      IngestedAreBacked(s.executor, s.queue, s.state, ev.records, ev.clock);
      CycleKeepsBacked(c, e, OpenWindow(s.state, ev.now), s.executor, Ingest(s.queue, s.state, ev.records, ev.clock),
        ev.outs);
    } else if ev.Enqueue? {
      AddedAreBacked(s.executor, s.queue, ev.added);
    } else {
      BackedLater(s.executor, OnEvent(c, e, s, ev).executor, s.queue);
    }
  }

  /** Main result: whatever cycles crash, whatever replies get lost and whoever else calls the
      executor, each request id and each non-empty swap reference causes at most one transfer
      beyond those the executor itself failed to record, and every paid item has a transfer
      behind its request id or swap reference. */
  lemma {:induction false} PayoutsHappenOnce(c: Config, e: Exec.Settings, s: System, evs: seq<Event>, r: string,
                                             ref: string)
    requires e.live && !c.dryRun && ref != ""
    requires Sound(s.executor) && QueueBacked(s.executor, s.queue) && FreshItems(evs)
    ensures
      var t := OnEvents(c, e, s, evs);
      && Sound(t.executor) && QueueBacked(t.executor, t.queue)
      && SeqSum(t.executor.transfers, Exec.RequestTransfer(r)) <= 1 + SeqSum(t.executor.transfers, Exec.LostTransfer(r))
      && SeqSum(t.executor.transfers, Exec.SwapTransfer(ref)) <= 1
          + SeqSum(t.executor.transfers, Exec.LostSwapTransfer(ref))
    decreases |evs|
  {
    if evs != [] {
      var before, ev := evs[..|evs| - 1], evs[|evs| - 1];
      PayoutsHappenOnce(c, e, s, before, r, ref);
      EventKeepsSound(c, e, OnEvents(c, e, s, before), ev);
      EventKeepsBacked(c, e, OnEvents(c, e, s, before), ev);
    }
    var x := OnEvents(c, e, s, evs).executor;
    assert Exec.RequestBalanced(x, r) && Exec.SwapBalanced(x, ref);
  }

  lemma {:induction false} CycleKeepsWindow(c: Config, e: Exec.Settings, s: State, x: Exec.Executor,
                                            items: seq<Item>, outs: nat -> Outside)
    ensures Cycle(c, e, s, x, items, outs).state.windowStart == s.windowStart
    decreases |items|
  {
    if items != [] {
      CycleKeepsWindow(c, e, s, x, items[..|items| - 1], outs);
    }
  }

  /** Main result: dying between the two writes keeps the paid items and forgets their amounts. The
      hourly total, and each wallet's total of a day, that the next run of the same instant finds
      match the stored queue if and only if the cycle ended or paid nothing towards them. */
  lemma BooksSurviveUnlessWritesSplit(c: Config, e: Exec.Settings, s: System, ev: Event, key: DayKey)
    requires ev.RunCycle? && !ev.crash.InItems?
    ensures
      var items, t := Ingest(s.queue, s.state, ev.records, ev.clock), OnEvent(c, e, s, ev);
      var start, found := OpenWindow(s.state, ev.now), OpenWindow(t.state, ev.now);
      && |t.queue| == |items|
      && (found.hourlyPaid == start.hourlyPaid + PaidNow(items, t.queue) <==>
          ev.crash.NoCrash? || PaidNow(items, t.queue) == 0)
      && (UserPaid(found, key) == UserPaid(start, key) + PaidNowTo(items, t.queue, ev.outs, key) <==>
          ev.crash.NoCrash? || PaidNowTo(items, t.queue, ev.outs, key) == 0)
  {
    var items, start := Ingest(s.queue, s.state, ev.records, ev.clock), OpenWindow(s.state, ev.now);
    BooksMatchPayouts(c, e, start, s.executor, items, ev.outs, key);
    CycleKeepsWindow(c, e, start, s.executor, items, ev.outs);
  }

  predicate NoCrashes(evs: seq<Event>) {
    forall i :: 0 <= i < |evs| && evs[i].RunCycle? ==> evs[i].crash.NoCrash?
  }

  /** Main result: with fixed caps and no crash, no cycle of a run takes the hourly total or a
      wallet's daily total above its cap. */
  lemma {:induction false} RunsKeepCaps(c: Config, e: Exec.Settings, s: System, evs: seq<Event>)
    requires c.hourlyCap >= 0 && WithinCaps(c, s.state) && NoCrashes(evs)
    ensures WithinCaps(c, OnEvents(c, e, s, evs).state)
    decreases |evs|
  {
    if evs != [] {
      var before, ev := evs[..|evs| - 1], evs[|evs| - 1];
      RunsKeepCaps(c, e, s, before);
      var t := OnEvents(c, e, s, before);
      if ev.RunCycle? {
        CycleKeepsCaps(c, e, OpenWindow(t.state, ev.now), t.executor, Ingest(t.queue, t.state, ev.records, ev.clock),
          ev.outs);
      }
    }
  }
}
