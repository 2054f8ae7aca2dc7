/** One run of the worker over its files (worker.js:394-648), with the places it can die in, and series of runs;
    both are proved to be the cycles that `PayoutRuns` and `PayoutCaps` speak of. */
module WorkerRuns {
  import opened PayoutIngest
  import opened PayoutRuns
  import opened PayoutWorker
  import Exec = PayoutExecutor

  /** The queue file and the state file. */
  class Files {
    var queue: seq<Item>
    var state: State

    constructor (q: seq<Item>, s: State)
      ensures queue == q && state == s
    {
      queue, state := q, s;
    }
  }

  function View(files: Files, server: Exec.Server): System
    reads files, server
  {
    System(files.queue, files.state, server.View())
  }

  /** Ingestion looks at the processed keys alone. */
  lemma {:induction false} IngestIgnoresWindow(items: seq<Item>, s: State, t: State, records: seq<Candidate>,
                                               now: string)
    requires s.requests == t.requests && s.swaps == t.swaps
    ensures Ingest(items, s, records, now) == Ingest(items, t, records, now)
    decreases |records|
  {
    if records != [] {
      IngestIgnoresWindow(items, s, t, records[..|records| - 1], now);
    }
  }

  /** `runWorker`: load both files, open the window, ingest, take the turns, write the queue, write the state. */
  method RunWorker(c: Config, files: Files, server: Exec.Server, now: int, clock: string, records: seq<Candidate>,
                   outs: nat -> Outside, crash: Crash)
    modifies files, server
    ensures View(files, server) ==
            RunOneCycle(c, server.settings, old(View(files, server)), RunCycle(now, clock, records, outs, crash))
  {
    var loaded := files.state;
    var state := loaded;
    if now - state.windowStart >= 3_600_000 {
      state := state.(windowStart := now, hourlyPaid := 0);
    }
    var queue, _, _ := AutoIngestQueue(files.queue, state, records, |records|, clock);
    assert records[..|records|] == records;
    IngestIgnoresWindow(files.queue, loaded, state, records, clock);
    if crash.InItems? && crash.turns > |queue| {
      return;
    }
    var turns := if crash.InItems? then queue[..crash.turns] else queue;
    var worker := new Worker(c, server, state);
    worker.RunItems(turns, outs);
    if crash.InItems? {
      return;
    }
    files.queue := worker.items;
    if crash.BetweenWrites? {
      return;
    }
    files.state := worker.state;
  }

  /** One event of the world around the files. */
  method Happen(c: Config, files: Files, server: Exec.Server, ev: Event)
    modifies files, server
    ensures View(files, server) == OnEvent(c, server.settings, old(View(files, server)), ev)
  {
    match ev
    case RunCycle(now, clock, records, outs, crash) => RunWorker(c, files, server, now, clock, records, outs, crash);
    case Enqueue(added) => files.queue := files.queue + added;
    case OtherClient(payout, chain) => var _ := server.HandleExecute(payout, chain);
  }

  /** Main result: over any series of runs, hand-made items and other clients, with crashes anywhere, the two files and
      the executor are where `PayoutRuns` has them, so everything proved there holds of them. */
  method HappenAll(c: Config, files: Files, server: Exec.Server, evs: seq<Event>)
    modifies files, server
    ensures View(files, server) == OnEvents(c, server.settings, old(View(files, server)), evs)
  {
    for i := 0 to |evs|
      invariant View(files, server) == OnEvents(c, server.settings, old(View(files, server)), evs[..i])
    {
      assert evs[..i + 1][..i] == evs[..i];
      Happen(c, files, server, evs[i]);
    }
    assert evs[..|evs|] == evs;
  }
}
