/** What the treasury really sends in an hour, against the worker's hourly cap
    (worker.js:314-354, 509-540, payout-executor/server.js:171-282). The cap is checked against
    the worker's books, and a payout whose reply is lost is made and not booked. */
module PayoutCaps {
  import opened PayoutIngest
  import opened PayoutRuns
  import opened PayoutWorker
  import opened Sums
  import Exec = PayoutExecutor

  function AmountOf(): Exec.Transfer -> nat {
    (t: Exec.Transfer) => if t.payout.amount > 0 then t.payout.amount else 0
  }

  /** All that has left the treasury. */
  function Outgo(x: Exec.Executor): nat {
    SeqSum(x.transfers, AmountOf())
  }

  /** Whether a request leads to a transfer. */
  predicate Makes(e: Exec.Settings, x: Exec.Executor, p: Exec.Payout, chain: Exec.Chain) {
    && Exec.WellFormed(e, p) && !Exec.OnFile(x, p)
    && e.live && chain.treasury >= p.amount && !chain.outcome.Refused?
  }

  lemma ExecuteSends(e: Exec.Settings, x: Exec.Executor, p: Exec.Payout, chain: Exec.Chain)
    ensures Outgo(Exec.Execute(e, x, p, chain).0) == Outgo(x) + if Makes(e, x, p, chain) then p.amount else 0
  {
    if Makes(e, x, p, chain) {
      var t := Exec.Transfer(p, chain.outcome.txHash, chain.outcome.Mined?);
      Exec.SumLast(x.transfers, t, AmountOf());
    }
  }

  predicate Attempted(c: Config, s: State, item: Item, out: Outside) {
    item.status.Pending? && Judge(c, s, item, out).NoNote?
  }

  /** What a turn sends. */
  function Sends(c: Config, e: Exec.Settings, p: Progress, item: Item, out: Outside): nat {
    if Attempted(c, p.state, item, out) && !c.dryRun && !out.network.Unreached?
       && Makes(e, p.executor, Payout(item), out.chain)
    then item.amount
    else 0
  }

  /** The worker learns the hash of the transfer. */
  predicate Learns(out: Outside) {
    out.network.Delivered? && out.chain.outcome.Mined? && out.chain.outcome.txHash != ""
  }

  /** What a turn sends without booking it. */
  function Unbooked(c: Config, e: Exec.Settings, p: Progress, item: Item, out: Outside): nat {
    if Learns(out) then 0 else Sends(c, e, p, item, out)
  }

  /** What a turn books without sending it: a dry run, or an answer that was on file. */
  function Unsent(c: Config, e: Exec.Settings, p: Progress, item: Item, out: Outside): nat {
    if Attempted(c, p.state, item, out) && (c.dryRun || (out.network.Delivered? && Answers(e, p.executor, item)))
    then item.amount
    else 0
  }

  /** The executor has an answer without a transfer. */
  predicate Answers(e: Exec.Settings, x: Exec.Executor, item: Item) {
    && Exec.WellFormed(e, Payout(item))
    && if Exec.OnFile(x, Payout(item)) then Exec.FiledHash(x, Payout(item)) != "" else !e.live
  }

  lemma SettledTurn(c: Config, e: Exec.Settings, p: Progress, item: Item, out: Outside)
    requires !Attempted(c, p.state, item, out)
    ensures var q := Turn(c, e, p, item, out); q.executor == p.executor && q.state == p.state
  {
  }

  /** The amount if the worker takes the reply as a payout. */
  function BookedFor(reply: Exec.Response, item: Item): int {
    if reply.Sent? && reply.txHash != "" then item.amount else 0
  }

  lemma AttemptedTurn(c: Config, e: Exec.Settings, p: Progress, item: Item, out: Outside)
    requires Attempted(c, p.state, item, out)
    ensures
      var q, (x, reply) := Turn(c, e, p, item, out), Reply(c, e, p.executor, item, out);
      q.executor == x && q.state.hourlyPaid == p.state.hourlyPaid + BookedFor(reply, item)
  {
  }

  lemma ReplyBooks(c: Config, e: Exec.Settings, p: Progress, item: Item, out: Outside)
    requires Attempted(c, p.state, item, out)
    ensures Sends(c, e, p, item, out) == BookedFor(Reply(c, e, p.executor, item, out).1, item)
                                         + Unbooked(c, e, p, item, out) - Unsent(c, e, p, item, out)
  {
  }

  lemma TurnSends(c: Config, e: Exec.Settings, p: Progress, item: Item, out: Outside)
    ensures
      var q := Turn(c, e, p, item, out);
      && Outgo(q.executor) == Outgo(p.executor) + Sends(c, e, p, item, out)
      && Sends(c, e, p, item, out) == q.state.hourlyPaid - p.state.hourlyPaid + Unbooked(c, e, p, item, out)
                                      - Unsent(c, e, p, item, out)
  {
    if Attempted(c, p.state, item, out) {
      AttemptedTurn(c, e, p, item, out);
      ReplyBooks(c, e, p, item, out);
      ExecuteSends(e, p.executor, Payout(item), out.chain);
    } else {
      SettledTurn(c, e, p, item, out);
    }
  }

  /** The same for a cycle. */
  function CycleUnbooked(c: Config, e: Exec.Settings, s: State, x: Exec.Executor, items: seq<Item>,
                         outs: nat -> Outside): nat
    decreases |items|
  {
    if items == [] then 0
    else
      var n := |items| - 1;
      CycleUnbooked(c, e, s, x, items[..n], outs)
      + Unbooked(c, e, Cycle(c, e, s, x, items[..n], outs), items[n], outs(n))
  }

  function CycleUnsent(c: Config, e: Exec.Settings, s: State, x: Exec.Executor, items: seq<Item>,
                       outs: nat -> Outside): nat
    decreases |items|
  {
    if items == [] then 0
    else
      var n := |items| - 1;
      CycleUnsent(c, e, s, x, items[..n], outs)
      + Unsent(c, e, Cycle(c, e, s, x, items[..n], outs), items[n], outs(n))
  }

  /** What a cycle sends is what it books, plus what it sends without learning the hash, minus what it
      books without sending. So it stays within what the cap leaves but for the former. */
  lemma {:induction false} CycleSends(c: Config, e: Exec.Settings, s: State, x: Exec.Executor, items: seq<Item>,
                                      outs: nat -> Outside)
    ensures
      var p := Cycle(c, e, s, x, items, outs);
      && Outgo(p.executor) - Outgo(x) == p.state.hourlyPaid - s.hourlyPaid
          + CycleUnbooked(c, e, s, x, items, outs) - CycleUnsent(c, e, s, x, items, outs)
      && Outgo(x) <= Outgo(p.executor)
    decreases |items|
  {
    if items != [] {
      var n := |items| - 1;
      CycleSends(c, e, s, x, items[..n], outs);
      TurnSends(c, e, Cycle(c, e, s, x, items[..n], outs), items[n], outs(n));
    }
  }

  // --- over a window ---------------------------------------------------------------

  /** What an event sends. */
  function EventSends(c: Config, e: Exec.Settings, s: System, ev: Event): int {
    Outgo(OnEvent(c, e, s, ev).executor) - Outgo(s.executor)
  }

  /** What it sends without an entry in the stored books: in a cycle that dies everything, and everything
      that is sent for other clients. */
  function EventUnbooked(c: Config, e: Exec.Settings, s: System, ev: Event): int {
    if ev.RunCycle? && ev.crash.NoCrash? then
      CycleUnbooked(c, e, OpenWindow(s.state, ev.now), s.executor, Ingest(s.queue, s.state, ev.records, ev.clock),
        ev.outs)
    else EventSends(c, e, s, ev)
  }

  function EventUnsent(c: Config, e: Exec.Settings, s: System, ev: Event): nat {
    if ev.RunCycle? && ev.crash.NoCrash? then
      CycleUnsent(c, e, OpenWindow(s.state, ev.now), s.executor, Ingest(s.queue, s.state, ev.records, ev.clock),
        ev.outs)
    else 0
  }

  function RunUnbooked(c: Config, e: Exec.Settings, s: System, evs: seq<Event>): int
    decreases |evs|
  {
    if evs == [] then 0
    else
      var before, ev := evs[..|evs| - 1], evs[|evs| - 1];
      RunUnbooked(c, e, s, before) + EventUnbooked(c, e, OnEvents(c, e, s, before), ev)
  }

  function RunUnsent(c: Config, e: Exec.Settings, s: System, evs: seq<Event>): nat
    decreases |evs|
  {
    if evs == [] then 0
    else
      var before, ev := evs[..|evs| - 1], evs[|evs| - 1];
      RunUnsent(c, e, s, before) + EventUnsent(c, e, OnEvents(c, e, s, before), ev)
  }

  /** Every cycle begins within the hour that is open. */
  predicate OneWindow(s: State, evs: seq<Event>) {
    forall i :: 0 <= i < |evs| && evs[i].RunCycle? ==> evs[i].now - s.windowStart < HOUR_MS
  }

  lemma EventInWindow(c: Config, e: Exec.Settings, s: System, ev: Event)
    requires ev.RunCycle? ==> ev.now - s.state.windowStart < HOUR_MS
    ensures
      var t := OnEvent(c, e, s, ev);
      && t.state.windowStart == s.state.windowStart
      && EventSends(c, e, s, ev) == t.state.hourlyPaid - s.state.hourlyPaid + EventUnbooked(c, e, s, ev)
                                    - EventUnsent(c, e, s, ev)
  {
    if ev.RunCycle? && ev.crash.NoCrash? {
      var items := Ingest(s.queue, s.state, ev.records, ev.clock);
      CycleSends(c, e, s.state, s.executor, items, ev.outs);
      CycleKeepsWindow(c, e, s.state, s.executor, items, ev.outs);
    }
  }

  lemma {:induction false} WindowSends(c: Config, e: Exec.Settings, s: System, evs: seq<Event>)
    requires OneWindow(s.state, evs)
    ensures
      var t := OnEvents(c, e, s, evs);
      && t.state.windowStart == s.state.windowStart
      && Outgo(t.executor) - Outgo(s.executor) == t.state.hourlyPaid - s.state.hourlyPaid
                                                  + RunUnbooked(c, e, s, evs) - RunUnsent(c, e, s, evs)
    decreases |evs|
  {
    if evs != [] {
      var before, ev := evs[..|evs| - 1], evs[|evs| - 1];
      WindowSends(c, e, s, before);
      EventInWindow(c, e, OnEvents(c, e, s, before), ev);
    }
  }

  lemma {:induction false} WindowKeepsCaps(c: Config, e: Exec.Settings, s: System, evs: seq<Event>)
    requires OneWindow(s.state, evs) && WithinCaps(c, s.state)
    ensures WithinCaps(c, OnEvents(c, e, s, evs).state)
    decreases |evs|
  {
    if evs != [] {
      var before, ev := evs[..|evs| - 1], evs[|evs| - 1];
      WindowKeepsCaps(c, e, s, before);
      WindowSends(c, e, s, before);
      var t := OnEvents(c, e, s, before);
      if ev.RunCycle? {
        CycleKeepsCaps(c, e, OpenWindow(t.state, ev.now), t.executor, Ingest(t.queue, t.state, ev.records, ev.clock),
          ev.outs);
      }
    }
  }

  /** Main result: in one hour, whatever crashes and whoever else calls the executor, the treasury sends
      at most what the cap leaves, plus what went out unbooked: payouts whose reply or hash was lost,
      whole cycles that died before their second write, and other clients' payouts. It is exactly
      what was booked, plus that, minus what was booked from answers on file. */
  lemma HourlyOutgo(c: Config, e: Exec.Settings, s: System, evs: seq<Event>)
    requires OneWindow(s.state, evs) && WithinCaps(c, s.state)
    ensures
      var t := OnEvents(c, e, s, evs);
      var sent, unbooked := Outgo(t.executor) - Outgo(s.executor), RunUnbooked(c, e, s, evs);
      && sent == t.state.hourlyPaid - s.state.hourlyPaid + unbooked - RunUnsent(c, e, s, evs)
      && sent <= c.hourlyCap - s.state.hourlyPaid + unbooked
  {
    WindowSends(c, e, s, evs);
    WindowKeepsCaps(c, e, s, evs);
  }

  /** Both payouts are made and pass every check by themselves; the reply to the first is lost. */
  predicate BothPass(c: Config, e: Exec.Settings, s: State, x: Exec.Executor, i: Item, j: Item, outs: nat -> Outside) {
    && Attempted(c, s, i, outs(0)) && Makes(e, x, Payout(i), outs(0).chain)
    && Attempted(c, s, j, outs(1)) && Makes(e, x, Payout(j), outs(1).chain)
    && outs(0).network.ReplyLost? && Learns(outs(1))
    && i.requestId != j.requestId && (j.swapRef == "" || j.swapRef != i.swapRef)
  }

  /** The first payout is made and not booked. */
  lemma LostFirst(c: Config, e: Exec.Settings, s: State, x: Exec.Executor, i: Item, j: Item, outs: nat -> Outside)
      returns (first: Progress)
    requires !c.dryRun && BothPass(c, e, s, x, i, j, outs)
    ensures first == Cycle(c, e, s, x, [i], outs)
    ensures first.state == s && Outgo(first.executor) == Outgo(x) + i.amount
    ensures Makes(e, first.executor, Payout(j), outs(1).chain)
  {
    var start := Progress(s, x, NO_COUNTS, []);
    first := Turn(c, e, start, i, outs(0));
    assert [i][..0] == [];
    TurnSends(c, e, start, i, outs(0));
  }

  lemma LearnedTurn(c: Config, e: Exec.Settings, p: Progress, item: Item, out: Outside)
    requires !c.dryRun && Attempted(c, p.state, item, out)
    requires Makes(e, p.executor, Payout(item), out.chain) && Learns(out)
    ensures
      var q := Turn(c, e, p, item, out);
      && Outgo(q.executor) == Outgo(p.executor) + item.amount
      && q.state.hourlyPaid == p.state.hourlyPaid + item.amount
  {
    TurnSends(c, e, p, item, out);
  }

  /** The cap does not bound what is sent: of any two payouts that each use all of it, the second is made
      as well when the reply to the first is lost. */
  lemma LostReplyDoublesHour(c: Config, e: Exec.Settings, s: State, x: Exec.Executor, i: Item, j: Item,
                             outs: nat -> Outside)
    requires !c.dryRun && s.hourlyPaid == 0 && i.amount == j.amount == c.hourlyCap
    requires BothPass(c, e, s, x, i, j, outs)
    ensures
      var p := Cycle(c, e, s, x, [i, j], outs);
      Outgo(p.executor) == Outgo(x) + 2 * c.hourlyCap && p.state.hourlyPaid == c.hourlyCap
  {
    var first := LostFirst(c, e, s, x, i, j, outs);
    LearnedTurn(c, e, first, j, outs(1));
    assert [i, j][..1] == [i];
    assert Cycle(c, e, s, x, [i, j], outs) == Turn(c, e, first, j, outs(1));
  }
}
