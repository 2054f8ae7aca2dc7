/** The payout executor's `/execute` handler (payout-executor/server.js:171-282).

    Requests are handled one at a time. The chain's answer is an input: a transfer may be
    refused, mined, or sent without the handler living to record it. Amounts are whole
    micro-USDC. */
module PayoutExecutor {
  import opened Sums
  import Text

  datatype Payout = Payout(
    requestId: string,
    destination: string,
    amount: int,
    swapRef: string,
    asset: string,
    network: string)

  datatype Record = Record(requestId: string, destination: string, amount: int, txHash: string, live: bool)

  /** A transfer out of the treasury, and whether the handler went on to record it. */
  datatype Transfer = Transfer(payout: Payout, txHash: string, recorded: bool)

  datatype Outcome = Refused | Mined(txHash: string) | Lost(txHash: string)

  /** The chain as one request finds it. */
  datatype Chain = Chain(treasury: nat, outcome: Outcome)

  datatype Response = Error | Sent(txHash: string, duplicate: bool)

  datatype Executor = Executor(
    byRequest: map<string, Record>,
    bySwap: map<string, Record>,
    transfers: seq<Transfer>)

  /** `live` is the negation of ALLOW_DRY_RUN; `isAddress` is the address check of the
      chain library. */
  datatype Settings = Settings(live: bool, isAddress: string -> bool)

  predicate WellFormed(e: Settings, p: Payout) {
    && p.requestId != "" && p.destination != "" && p.amount != 0
    && e.isAddress(p.destination)
    && p.amount > 0
    && (p.asset == "" || Text.AsciiUpper(p.asset) == "USDC")
    && (p.network == "" || Text.AsciiUpper(p.network) == "BSC")
  }

  function Save(x: Executor, p: Payout, txHash: string, live: bool): Executor {
    var record := Record(p.requestId, p.destination, p.amount, txHash, live);
    x.(byRequest := x.byRequest[p.requestId := record],
    bySwap := if p.swapRef == "" then x.bySwap else x.bySwap[p.swapRef := record])
  }

  /** The answer already on file, by request id first. */
  predicate OnFile(x: Executor, p: Payout) {
    p.requestId in x.byRequest || (p.swapRef != "" && p.swapRef in x.bySwap)
  }

  function FiledHash(x: Executor, p: Payout): string
    requires OnFile(x, p)
  {
    if p.requestId in x.byRequest then x.byRequest[p.requestId].txHash else x.bySwap[p.swapRef].txHash
  }

  function Execute(e: Settings, x: Executor, p: Payout, chain: Chain): (Executor, Response) {
    if !WellFormed(e, p) then (x, Error)
    else if OnFile(x, p) then (x, Sent(FiledHash(x, p), true))
    else if !e.live then (Save(x, p, "dryrun-" + p.requestId, false), Sent("dryrun-" + p.requestId, false))
    else if chain.treasury < p.amount then (x, Error)
    else
      match chain.outcome
      case Refused => (x, Error)
      case Lost(h) => (x.(transfers := x.transfers + [Transfer(p, h, false)]), Error)
      case Mined(h) =>
        (Save(x.(transfers := x.transfers + [Transfer(p, h, true)]), p, h, true), Sent(h, false))
  }

  function RequestTransfer(r: string): Transfer -> nat {
    (t: Transfer) => if t.payout.requestId == r then 1 else 0
  }

  function LostTransfer(r: string): Transfer -> nat {
    (t: Transfer) => if t.payout.requestId == r && !t.recorded then 1 else 0
  }

  function SwapTransfer(s: string): Transfer -> nat {
    (t: Transfer) => if t.payout.swapRef == s then 1 else 0
  }

  function LostSwapTransfer(s: string): Transfer -> nat {
    (t: Transfer) => if t.payout.swapRef == s && !t.recorded then 1 else 0
  }

  /** A live record is on file for a key. */
  predicate LiveOnFile(records: map<string, Record>, key: string) {
    key in records && records[key].live
  }

  /** The books balance: a key's transfers are its live record, if any, plus the lost ones. */
  ghost predicate RequestBalanced(x: Executor, r: string) {
    SeqSum(x.transfers, RequestTransfer(r)) ==
    SeqSum(x.transfers, LostTransfer(r)) + if LiveOnFile(x.byRequest, r) then 1 else 0
  }

  ghost predicate SwapBalanced(x: Executor, s: string) {
    SeqSum(x.transfers, SwapTransfer(s)) ==
    SeqSum(x.transfers, LostSwapTransfer(s)) + if LiveOnFile(x.bySwap, s) then 1 else 0
  }

  ghost predicate Balanced(x: Executor) {
    && (forall r :: RequestBalanced(x, r))
    && (forall s :: s != "" ==> SwapBalanced(x, s))
  }

  lemma SumLast(xs: seq<Transfer>, t: Transfer, f: Transfer -> nat)
    ensures SeqSum(xs + [t], f) == SeqSum(xs, f) + f(t)
  {
    SeqSumConcat(xs, [t], f);
    assert [t][1..] == [];
    assert SeqSum([t], f) == f(t) + SeqSum([t][1..], f);
  }

  lemma RequestStaysBalanced(e: Settings, x: Executor, p: Payout, chain: Chain, r: string)
    requires RequestBalanced(x, r)
    ensures RequestBalanced(Execute(e, x, p, chain).0, r)
  {
    var after := Execute(e, x, p, chain).0;
    if after.transfers != x.transfers {
      var t := after.transfers[|x.transfers|];
      assert after.transfers == x.transfers + [t];
      SumLast(x.transfers, t, RequestTransfer(r));
      SumLast(x.transfers, t, LostTransfer(r));
    }
  }

  lemma SwapStaysBalanced(e: Settings, x: Executor, p: Payout, chain: Chain, s: string)
    requires SwapBalanced(x, s) && s != ""
    ensures SwapBalanced(Execute(e, x, p, chain).0, s)
  {
    var after := Execute(e, x, p, chain).0;
    if after.transfers != x.transfers {
      var t := after.transfers[|x.transfers|];
      assert after.transfers == x.transfers + [t];
      SumLast(x.transfers, t, SwapTransfer(s));
      SumLast(x.transfers, t, LostSwapTransfer(s));
    }
  }

  lemma StaysBalanced(e: Settings, x: Executor, p: Payout, chain: Chain)
    requires Balanced(x)
    ensures Balanced(Execute(e, x, p, chain).0)
  {
    forall r ensures RequestBalanced(Execute(e, x, p, chain).0, r) {
      RequestStaysBalanced(e, x, p, chain, r);
    }
    forall s | s != "" ensures SwapBalanced(Execute(e, x, p, chain).0, s) {
      SwapStaysBalanced(e, x, p, chain, s);
    }
  }

  /** One request as the handler met it. */
  datatype Call = Call(settings: Settings, payout: Payout, chain: Chain)

  function ExecuteAll(x: Executor, calls: seq<Call>): Executor
    decreases |calls|
  {
    if calls == [] then x
    else
      var c := calls[|calls| - 1];
      Execute(c.settings, ExecuteAll(x, calls[..|calls| - 1]), c.payout, c.chain).0
  }

  const EMPTY := Executor(map[], map[], [])

  /** Main result: over any run of requests, in any mix of live and dry-run modes, a request id
      or a swap reference causes at most one transfer beyond those whose handler died before
      recording them; so at most one in all when none did. */
  lemma {:induction false} AtMostOneTransfer(calls: seq<Call>, r: string, s: string)
    requires s != ""
    ensures Balanced(ExecuteAll(EMPTY, calls))
    ensures var x := ExecuteAll(EMPTY, calls);
      && SeqSum(x.transfers, RequestTransfer(r)) <= 1 + SeqSum(x.transfers, LostTransfer(r))
      && SeqSum(x.transfers, SwapTransfer(s)) <= 1 + SeqSum(x.transfers, LostSwapTransfer(s))
    decreases |calls|
  {
    if calls != [] {
      var before, c := calls[..|calls| - 1], calls[|calls| - 1];
      AtMostOneTransfer(before, r, s);
      StaysBalanced(c.settings, ExecuteAll(EMPTY, before), c.payout, c.chain);
    }
    var x := ExecuteAll(EMPTY, calls);
    assert RequestBalanced(x, r) && SwapBalanced(x, s);
  }

  /** The bound is met: a transfer whose handler died before recording it is made again. */
  lemma LostTransferRepeats(e: Settings, x: Executor, p: Payout, chain: Chain, retry: Chain)
    requires e.live && WellFormed(e, p) && !OnFile(x, p)
    requires chain.outcome.Lost? && retry.outcome.Mined?
    requires chain.treasury >= p.amount && retry.treasury >= p.amount
    ensures
      var after := Execute(e, Execute(e, x, p, chain).0, p, retry).0;
      SeqSum(after.transfers, RequestTransfer(p.requestId)) == SeqSum(x.transfers, RequestTransfer(p.requestId)) + 2
  {
    var lost, made := Transfer(p, chain.outcome.txHash, false), Transfer(p, retry.outcome.txHash, true);
    SumLast(x.transfers, lost, RequestTransfer(p.requestId));
    SumLast(x.transfers + [lost], made, RequestTransfer(p.requestId));
  }

  /** Records are never overwritten and transfers never taken back. */
  ghost predicate Extends(x: Executor, y: Executor) {
    && x.transfers <= y.transfers
    && (forall r :: r in x.byRequest ==> r in y.byRequest && y.byRequest[r] == x.byRequest[r])
    && (forall s :: s in x.bySwap ==> s in y.bySwap && y.bySwap[s] == x.bySwap[s])
  }

  lemma ExecuteExtends(e: Settings, x: Executor, p: Payout, chain: Chain)
    ensures Extends(x, Execute(e, x, p, chain).0)
  {
  }

  lemma {:induction false} RunExtends(x: Executor, calls: seq<Call>)
    ensures Extends(x, ExecuteAll(x, calls))
    decreases |calls|
  {
    if calls != [] {
      RunExtends(x, calls[..|calls| - 1]);
    }
  }

  /** A repetition after further calls gets `h`, is marked a duplicate and changes nothing. */
  ghost predicate Repeats(e: Settings, x: Executor, p: Payout, h: string, calls: seq<Call>, later: Chain) {
    Execute(e, ExecuteAll(x, calls), p, later) == (ExecuteAll(x, calls), Sent(h, true))
  }

  /** An answer filed under the request id stays. */
  lemma FiledAnswerStays(e: Settings, x: Executor, p: Payout, chain: Chain, calls: seq<Call>, later: Chain)
    requires Execute(e, x, p, chain).1.Sent? && p.requestId in Execute(e, x, p, chain).0.byRequest
    ensures Repeats(e, Execute(e, x, p, chain).0, p, Execute(e, x, p, chain).1.txHash, calls, later)
  {
    RunExtends(Execute(e, x, p, chain).0, calls);
  }

  /** Another hash than `h`. */
  function OtherHash(h: string): string {
    h + "'"
  }

  /** An answer taken from the swap reference alone does not: the request id is paid for without that
      reference, and the repetition is answered from the new record. */
  lemma BorrowedAnswerIsReplaced(e: Settings, x: Executor, p: Payout, chain: Chain)
    requires Execute(e, x, p, chain).1.Sent? && p.requestId !in Execute(e, x, p, chain).0.byRequest
    ensures
      var y, h := Execute(e, x, p, chain).0, Execute(e, x, p, chain).1.txHash;
      var other := Call(e.(live := true), p.(swapRef := ""), Chain(p.amount, Mined(OtherHash(h))));
      !Repeats(e, y, p, h, [other], chain)
  {
    var y, h := Execute(e, x, p, chain).0, Execute(e, x, p, chain).1.txHash;
    var other := Call(e.(live := true), p.(swapRef := ""), Chain(p.amount, Mined(OtherHash(h))));
    assert [other][..0] == [] && ExecuteAll(y, [other]) == Execute(other.settings, y, other.payout, other.chain).0;
    assert ExecuteAll(y, [other]).byRequest[p.requestId].txHash == OtherHash(h);
    assert |OtherHash(h)| == |h| + 1;
  }

  /** Main result: once a payout was answered with a hash, every later repetition of it gets the same
      hash, is marked a duplicate and changes nothing, whatever happens in between, if and only if
      the first answer left a record under its request id, so did not come from its swap reference
      alone. */
  lemma RepetitionsGetTheSameAnswer(e: Settings, x: Executor, p: Payout, chain: Chain)
    requires Execute(e, x, p, chain).1.Sent?
    ensures
      var y, h := Execute(e, x, p, chain).0, Execute(e, x, p, chain).1.txHash;
      (forall calls, later :: Repeats(e, y, p, h, calls, later)) <==> p.requestId in y.byRequest
  {
    var y, h := Execute(e, x, p, chain).0, Execute(e, x, p, chain).1.txHash;
    if p.requestId in y.byRequest {
      forall calls, later ensures Repeats(e, y, p, h, calls, later) {
        FiledAnswerStays(e, x, p, chain, calls, later);
      }
    } else {
      BorrowedAnswerIsReplaced(e, x, p, chain);
    }
  }

  /** Every answer on file points at a transfer made for that key. */
  ghost predicate Made(x: Executor, t: Transfer, h: string) {
    t in x.transfers && t.txHash == h
  }

  ghost predicate RequestBacked(x: Executor, r: string) {
    r in x.byRequest ==> exists t :: Made(x, t, x.byRequest[r].txHash) && t.payout.requestId == r
  }

  ghost predicate SwapBacked(x: Executor, s: string) {
    s in x.bySwap ==> exists t :: Made(x, t, x.bySwap[s].txHash) && t.payout.swapRef == s
  }

  ghost predicate AllBacked(x: Executor) {
    && (forall r :: RequestBacked(x, r))
    && (forall s :: SwapBacked(x, s))
  }

  lemma MadeLater(x: Executor, y: Executor, t: Transfer, h: string)
    requires Made(x, t, h) && x.transfers <= y.transfers
    ensures Made(y, t, h)
  {
    var i :| 0 <= i < |x.transfers| && x.transfers[i] == t;
    assert y.transfers[i] == t;
  }

  lemma RequestStaysBacked(e: Settings, x: Executor, p: Payout, chain: Chain, r: string)
    requires e.live && RequestBacked(x, r)
    ensures RequestBacked(Execute(e, x, p, chain).0, r)
  {
    var y := Execute(e, x, p, chain).0;
    if r in x.byRequest {
      var t :| Made(x, t, x.byRequest[r].txHash) && t.payout.requestId == r;
      ExecuteExtends(e, x, p, chain);
      MadeLater(x, y, t, x.byRequest[r].txHash);
    } else if r in y.byRequest {
      assert Made(y, Transfer(p, chain.outcome.txHash, true), y.byRequest[r].txHash);
    }
  }

  lemma SwapStaysBacked(e: Settings, x: Executor, p: Payout, chain: Chain, s: string)
    requires e.live && SwapBacked(x, s)
    ensures SwapBacked(Execute(e, x, p, chain).0, s)
  {
    var y := Execute(e, x, p, chain).0;
    if s in x.bySwap {
      var t :| Made(x, t, x.bySwap[s].txHash) && t.payout.swapRef == s;
      ExecuteExtends(e, x, p, chain);
      MadeLater(x, y, t, x.bySwap[s].txHash);
    } else if s in y.bySwap {
      assert Made(y, Transfer(p, chain.outcome.txHash, true), y.bySwap[s].txHash);
    }
  }

  lemma StaysBacked(e: Settings, x: Executor, p: Payout, chain: Chain)
    requires e.live && AllBacked(x)
    ensures AllBacked(Execute(e, x, p, chain).0)
  {
    var y := Execute(e, x, p, chain).0;
    forall r ensures RequestBacked(y, r) {
      RequestStaysBacked(e, x, p, chain, r);
    }
    forall s ensures SwapBacked(y, s) {
      SwapStaysBacked(e, x, p, chain, s);
    }
  }

  /** A transfer with hash `h` stands behind a payout, under its request id or swap reference. */
  ghost predicate Behind(x: Executor, requestId: string, swapRef: string, h: string) {
    exists t :: Made(x, t, h) && (t.payout.requestId == requestId || (swapRef != "" && t.payout.swapRef == swapRef))
  }

  lemma BehindLater(x: Executor, y: Executor, requestId: string, swapRef: string, h: string)
    requires Behind(x, requestId, swapRef, h) && x.transfers <= y.transfers
    ensures Behind(y, requestId, swapRef, h)
  {
    var t :| Made(x, t, h) && (t.payout.requestId == requestId || (swapRef != "" && t.payout.swapRef == swapRef));
    MadeLater(x, y, t, h);
  }

  /** A hash answered by a live executor is backed by a transfer. */
  lemma AnswersAreBacked(e: Settings, x: Executor, p: Payout, chain: Chain)
    requires e.live && AllBacked(x) && Execute(e, x, p, chain).1.Sent?
    ensures Behind(Execute(e, x, p, chain).0, p.requestId, p.swapRef, Execute(e, x, p, chain).1.txHash)
  {
    var y, h := Execute(e, x, p, chain).0, Execute(e, x, p, chain).1.txHash;
    StaysBacked(e, x, p, chain);
    if p.requestId in y.byRequest {
      assert RequestBacked(y, p.requestId);
      var t :| Made(y, t, y.byRequest[p.requestId].txHash) && t.payout.requestId == p.requestId;
      assert Made(y, t, h);
    } else {
      assert SwapBacked(y, p.swapRef);
      var t :| Made(y, t, y.bySwap[p.swapRef].txHash) && t.payout.swapRef == p.swapRef;
      assert Made(y, t, h);
    }
  }

  /** The executor process and its state file. */
  class Server {
    const settings: Settings
    var processedRequestIds: map<string, Record>
    var processedSwapRefs: map<string, Record>
    var transfers: seq<Transfer>

    function View(): Executor
      reads this
    {
      Executor(processedRequestIds, processedSwapRefs, transfers)
    }

    constructor (e: Settings)
      ensures settings == e && View() == EMPTY
    {
      settings := e;
      processedRequestIds, processedSwapRefs, transfers := map[], map[], [];
    }

    method SaveRecord(p: Payout, txHash: string, live: bool)
      modifies this
      ensures View() == Save(old(View()), p, txHash, live)
    {
      var record := Record(p.requestId, p.destination, p.amount, txHash, live);
      processedRequestIds := processedRequestIds[p.requestId := record];
      if p.swapRef != "" {
        processedSwapRefs := processedSwapRefs[p.swapRef := record];
      }
    }

    /** The `/execute` handler. */
    method HandleExecute(p: Payout, chain: Chain) returns (response: Response)
      modifies this
      ensures (View(), response) == Execute(settings, old(View()), p, chain)
    {
      if p.requestId == "" || p.destination == "" || p.amount == 0 {
        return Error;
      }
      if !settings.isAddress(p.destination) || p.amount <= 0 {
        return Error;
      }
      if p.asset != "" && Text.AsciiUpper(p.asset) != "USDC" {
        return Error;
      }
      if p.network != "" && Text.AsciiUpper(p.network) != "BSC" {
        return Error;
      }
      if p.requestId in processedRequestIds {
        return Sent(processedRequestIds[p.requestId].txHash, true);
      }
      if p.swapRef != "" && p.swapRef in processedSwapRefs {
        return Sent(processedSwapRefs[p.swapRef].txHash, true);
      }
      if !settings.live {
        var dryHash := "dryrun-" + p.requestId;
        SaveRecord(p, dryHash, false);
        return Sent(dryHash, false);
      }
      if chain.treasury < p.amount {
        return Error;
      }
      match chain.outcome
      case Refused =>
        return Error;
      case Lost(h) =>
        transfers := transfers + [Transfer(p, h, false)];
        return Error;
      case Mined(h) =>
        transfers := transfers + [Transfer(p, h, true)];
        SaveRecord(p, h, true);
        return Sent(h, false);
    }
  }
}
