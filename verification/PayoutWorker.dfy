/** The payout worker's cycle over its queue (worker.js:94-115, 296-354, 394-597).

    What one item meets outside the worker (calendar day, eligibility service, network, chain,
    activity log) is an input. Amounts and caps are whole micro-USDC. */
module PayoutWorker {
  import Exec = PayoutExecutor
  import Text

  datatype Status = Pending | Paid | Failed | Duplicate

  datatype Note =
    | NoNote
    | InvalidFields
    | RequestProcessed
    | SwapProcessed
    | WalletNotFound
    | WalletNotEligible
    | ReserveLow
    | UserCapExceeded
    | HourlyCapExceeded
    | ExecutorError
    | MissingHash

  datatype Item = Item(
    requestId: string,
    wallet: string,
    destination: string,
    amount: int,
    swapRef: string,
    status: Status,
    retries: nat,
    lastError: Note,
    txHash: string)

  type DayKey = (int, string)

  datatype State = State(
    requests: seq<string>,
    swaps: seq<string>,
    windowStart: int,
    hourlyPaid: int,
    userPaid: map<DayKey, int>)

  datatype Config = Config(
    dryRun: bool,
    skipEligibility: bool,
    minSessions: int,
    userCap: int,
    hourlyCap: int,
    reserve: real,
    liabilities: real,
    reserveRatioMin: real,
    maxRetries: int)

  datatype Eligibility = Unknown | Known(sessions: int, eligible: bool)

  datatype Network = Unreached | ReplyLost | Delivered

  datatype Outside = Outside(day: int, eligibility: Eligibility, network: Network, chain: Exec.Chain)

  /** How often the cycle took each way out. */
  datatype Counters = Counters(
    seen: nat,
    invalid: nat,
    duplicates: nat,
    notFound: nat,
    notEligible: nat,
    reserveBlocked: nat,
    userCapped: nat,
    hourlyCapped: nat,
    attempted: nat,
    paid: nat,
    failed: nat)

  const NO_COUNTS := Counters(0, 0, 0, 0, 0, 0, 0, 0, 0, 0, 0)

  const HOUR_MS := 3_600_000

  function ReserveRatio(c: Config): real {
    if c.liabilities <= 0.0 then 999999.0 else c.reserve / c.liabilities
  }

  /** `ensureHourlyWindow`. */
  function OpenWindow(s: State, now: int): State {
    if now - s.windowStart >= HOUR_MS then s.(windowStart := now, hourlyPaid := 0) else s
  }

  function Wallet(item: Item): string {
    Text.AsciiUpper(item.wallet)
  }

  function UserPaid(s: State, key: DayKey): int {
    if key in s.userPaid then s.userPaid[key] else 0
  }

  function Payout(item: Item): Exec.Payout {
    Exec.Payout(item.requestId, item.destination, item.amount, item.swapRef, "USDC", "BSC")
  }

  /** The first check an item fails, or NoNote when the payout may be attempted. */
  function Judge(c: Config, s: State, item: Item, out: Outside): Note {
    if item.requestId == "" || Wallet(item) == "" || item.amount <= 0 then InvalidFields
    else if item.requestId in s.requests then RequestProcessed
    else if item.swapRef != "" && item.swapRef in s.swaps then SwapProcessed
    else if !c.skipEligibility && out.eligibility.Unknown? then WalletNotFound
    else if !c.skipEligibility && (out.eligibility.sessions < c.minSessions || !out.eligibility.eligible) then
      WalletNotEligible
    else if ReserveRatio(c) < c.reserveRatioMin then ReserveLow
    else if UserPaid(s, (out.day, Wallet(item))) + item.amount > c.userCap then UserCapExceeded
    else if s.hourlyPaid + item.amount > c.hourlyCap then HourlyCapExceeded
    else NoNote
  }

  function Blocked(item: Item, note: Note): Item {
    item.(lastError := note,
    status := match note
              case InvalidFields => Failed
              case RequestProcessed => Duplicate
              case SwapProcessed => Duplicate
              case _ => item.status)
  }

  function CountBlocked(n: Counters, note: Note): Counters {
    match note
    case InvalidFields => n.(invalid := n.invalid + 1, failed := n.failed + 1)
    case RequestProcessed => n.(duplicates := n.duplicates + 1)
    case SwapProcessed => n.(duplicates := n.duplicates + 1)
    case WalletNotFound => n.(notFound := n.notFound + 1)
    case WalletNotEligible => n.(notEligible := n.notEligible + 1)
    case ReserveLow => n.(reserveBlocked := n.reserveBlocked + 1)
    case UserCapExceeded => n.(userCapped := n.userCapped + 1)
    case HourlyCapExceeded => n.(hourlyCapped := n.hourlyCapped + 1)
    case _ => n
  }

  /** `invokePayoutExecutor`: a reply that does not arrive may still have had its effect. */
  function Invoke(e: Exec.Settings, x: Exec.Executor, item: Item, out: Outside): (Exec.Executor, Exec.Response) {
    match out.network
    case Unreached => (x, Exec.Error)
    case ReplyLost => (Exec.Execute(e, x, Payout(item), out.chain).0, Exec.Error)
    case Delivered => Exec.Execute(e, x, Payout(item), out.chain)
  }

  function Retry(item: Item, note: Note, maxRetries: int): Item {
    item.(retries := item.retries + 1, lastError := note,
    status := if item.retries + 1 >= maxRetries then Failed else item.status)
  }

  /** What is entered in the worker's books for a payout it takes as made. */
  function Book(s: State, item: Item, out: Outside): State {
    var key := (out.day, Wallet(item));
    s.(requests := s.requests + [item.requestId],
    swaps := if item.swapRef == "" then s.swaps else s.swaps + [item.swapRef],
    hourlyPaid := s.hourlyPaid + item.amount,
    userPaid := s.userPaid[key := UserPaid(s, key) + item.amount])
  }

  /** Everything a cycle carries from one item to the next. */
  datatype Progress = Progress(state: State, executor: Exec.Executor, counts: Counters, items: seq<Item>)

  function PaidItem(item: Item, h: string): Item {
    item.(status := Paid, txHash := h)
  }

  /** A dry run pays without asking the executor. */
  function Reply(c: Config, e: Exec.Settings, x: Exec.Executor, item: Item,
                 out: Outside): (Exec.Executor, Exec.Response) {
    if c.dryRun then (x, Exec.Sent("dryrun-" + item.requestId, false)) else Invoke(e, x, item, out)
  }

  /** What the worker makes of a reply. */
  function Conclude(c: Config, p: Progress, item: Item, out: Outside, reply: Exec.Response): Progress {
    var n := p.counts.(attempted := p.counts.attempted + 1);
    if reply.Sent? && reply.txHash != "" then
      p.(state := Book(p.state, item, out), counts := n.(paid := n.paid + 1),
        items := p.items + [PaidItem(item, reply.txHash)])
    else
      var after := Retry(item, if reply.Sent? then MissingHash else ExecutorError, c.maxRetries);
      p.(counts := if after.status.Failed? then n.(failed := n.failed + 1) else n, items := p.items + [after])
  }

  function Attempt(c: Config, e: Exec.Settings, p: Progress, item: Item, out: Outside): Progress {
    var (x, reply) := Reply(c, e, p.executor, item, out);
    Conclude(c, p.(executor := x), item, out, reply)
  }

  /** One turn of the item loop. */
  function Turn(c: Config, e: Exec.Settings, p: Progress, item: Item, out: Outside): Progress {
    if !item.status.Pending? then p.(items := p.items + [item])
    else
      var seen := p.(counts := p.counts.(seen := p.counts.seen + 1));
      var note := Judge(c, p.state, item, out);
      if note.NoNote? then Attempt(c, e, seen, item, out)
      else seen.(counts := CountBlocked(seen.counts, note), items := seen.items + [Blocked(item, note)])
  }

  /** The item loop; `outs` gives what each item meets. */
  function Cycle(c: Config, e: Exec.Settings, s: State, x: Exec.Executor, items: seq<Item>,
                 outs: nat -> Outside): (p: Progress)
    ensures |p.items| == |items|
    decreases |items|
  {
    if items == [] then Progress(s, x, NO_COUNTS, [])
    else
      var n := |items| - 1;
      Turn(c, e, Cycle(c, e, s, x, items[..n], outs), items[n], outs(n))
  }

  /** `invokePayoutExecutor`. */
  method Send(server: Exec.Server, item: Item, out: Outside) returns (reply: Exec.Response)
    modifies server
    ensures (server.View(), reply) == Invoke(server.settings, old(server.View()), item, out)
  {
    if out.network.Unreached? {
      return Exec.Error;
    }
    reply := server.HandleExecute(Payout(item), out.chain);
    if out.network.ReplyLost? {
      reply := Exec.Error;
    }
  }

  /** The worker's own variables during a cycle. */
  class Worker {
    const config: Config
    const server: Exec.Server
    var state: State
    var counts: Counters
    var items: seq<Item>

    function View(): Progress
      reads this, server
    {
      Progress(state, server.View(), counts, items)
    }

    constructor (c: Config, executor: Exec.Server, s: State)
      ensures config == c && server == executor
      ensures View() == Progress(s, executor.View(), NO_COUNTS, [])
    {
      config, server, state, counts, items := c, executor, s, NO_COUNTS, [];
    }

    method GetReply(item: Item, out: Outside) returns (reply: Exec.Response)
      modifies server
      ensures (server.View(), reply) == Reply(config, server.settings, old(server.View()), item, out)
    {
      if config.dryRun {
        reply := Exec.Sent("dryrun-" + item.requestId, false);
      } else {
        reply := Send(server, item, out);
      }
    }

    method ConcludePayout(item: Item, out: Outside, reply: Exec.Response)
      modifies this
      ensures View() == Conclude(config, old(View()), item, out, reply)
    {
      counts := counts.(attempted := counts.attempted + 1);
      if reply.Error? || reply.txHash == "" {
        var after := Retry(item, if reply.Sent? then MissingHash else ExecutorError, config.maxRetries);
        if after.status.Failed? {
          counts := counts.(failed := counts.failed + 1);
        }
        items := items + [after];
      } else {
        counts := counts.(paid := counts.paid + 1);
        items := items + [PaidItem(item, reply.txHash)];
        state := Book(state, item, out);
      }
    }

    method AttemptPayout(item: Item, out: Outside)
      modifies this, server
      ensures View() == Attempt(config, server.settings, old(View()), item, out)
    {
      var reply := GetReply(item, out);
      ConcludePayout(item, out, reply);
    }

    method TakeTurn(item: Item, out: Outside)
      modifies this, server
      ensures View() == Turn(config, server.settings, old(View()), item, out)
    {
      if !item.status.Pending? {
        items := items + [item];
        return;
      }
      counts := counts.(seen := counts.seen + 1);
      var note := Judge(config, state, item, out);
      if note.NoNote? {
        AttemptPayout(item, out);
      } else {
        counts := CountBlocked(counts, note);
        items := items + [Blocked(item, note)];
      }
    }

    /** The item loop of `runWorker`. */
    method RunItems(queue: seq<Item>, outs: nat -> Outside)
      requires counts == NO_COUNTS && items == []
      modifies this, server
      ensures View() == Cycle(config, server.settings, old(state), old(server.View()), queue, outs)
    {
      for i := 0 to |queue|
        invariant View() == Cycle(config, server.settings, old(state), old(server.View()), queue[..i], outs)
      {
        assert queue[..i + 1][..i] == queue[..i];
        TakeTurn(queue[i], outs(i));
      }
      assert queue[..|queue|] == queue;
    }
  }
}
