/** Taking payout candidates into the queue (worker.js:188-276). */
module PayoutIngest {
  import opened PayoutWorker
  import Text

  /** One record of the ingest source, with "" for a missing text field. */
  datatype Candidate = Candidate(wallet: string, destination: string, amount: int, requestId: string, swapRef: string)

  predicate IsHex(c: char) {
    Text.IsDigit(c) || 'a' <= c <= 'f' || 'A' <= c <= 'F'
  }

  predicate LikelyEvmAddress(a: string) {
    |a| == 42 && a[0] == '0' && a[1] == 'x' && forall i :: 2 <= i < 42 ==> IsHex(a[i])
  }

  predicate Usable(r: Candidate) {
    Text.Trim(r.wallet) != "" && r.amount > 0 && LikelyEvmAddress(Text.Trim(r.destination))
  }

  function RequestIdOf(r: Candidate, now: string): string {
    if r.requestId != "" then r.requestId
    else "auto_" + Text.AsciiUpper(Text.Trim(r.wallet)) + "_" + Text.AsciiLower(Text.Trim(r.destination)) + "_" + now
  }

  function SwapRefOf(r: Candidate): string {
    if r.swapRef != "" then r.swapRef
    else "auto_swap_" + Text.AsciiUpper(Text.Trim(r.wallet)) + "_" + Text.AsciiLower(Text.Trim(r.destination))
  }

  function ItemOf(r: Candidate, now: string): Item {
    Item(RequestIdOf(r, now), Text.AsciiUpper(Text.Trim(r.wallet)), Text.Trim(r.destination), r.amount, SwapRefOf(r),
      Pending, 0, NoNote, "")
  }

  predicate RequestQueued(items: seq<Item>, id: string) {
    exists i :: 0 <= i < |items| && items[i].requestId == id
  }

  predicate SwapQueued(items: seq<Item>, ref: string) {
    exists i :: 0 <= i < |items| && items[i].swapRef == ref
  }

  /** `buildExistingRequestIds`, as a test. */
  predicate RequestKnown(items: seq<Item>, s: State, id: string) {
    id in s.requests || (id != "" && RequestQueued(items, id))
  }

  /** `buildExistingSwapRefs`, as a test. */
  predicate SwapKnown(items: seq<Item>, s: State, ref: string) {
    ref in s.swaps || (ref != "" && SwapQueued(items, ref))
  }

  predicate Known(items: seq<Item>, s: State, item: Item) {
    RequestKnown(items, s, item.requestId) || SwapKnown(items, s, item.swapRef)
  }

  function IngestOne(items: seq<Item>, s: State, r: Candidate, now: string): seq<Item> {
    if !Usable(r) || Known(items, s, ItemOf(r, now)) then items else items + [ItemOf(r, now)]
  }

  function Ingest(items: seq<Item>, s: State, records: seq<Candidate>, now: string): seq<Item>
    decreases |records|
  {
    if records == [] then items
    else
      var n := |records| - 1;
      IngestOne(Ingest(items, s, records[..n], now), s, records[n], now)
  }

  lemma RefsAreNotEmpty(r: Candidate, now: string)
    ensures RequestIdOf(r, now) != "" && SwapRefOf(r) != ""
  {
    assert "auto_swap_"[0] == 'a' && "auto_"[0] == 'a';
    if r.swapRef == "" {
      assert |SwapRefOf(r)| >= |"auto_swap_"|;
    }
    if r.requestId == "" {
      assert |RequestIdOf(r, now)| >= |"auto_"|;
    }
  }

  /** No two items share a request id or a swap reference. */
  ghost predicate Distinct(items: seq<Item>) {
    forall i, j :: 0 <= i < j < |items| ==>
                     && (items[i].requestId != "" ==> items[i].requestId != items[j].requestId)
                     && (items[i].swapRef != "" ==> items[i].swapRef != items[j].swapRef)
  }

  /** Neither the worker's books nor any earlier item mention the item at `j`. */
  ghost predicate Unseen(items: seq<Item>, s: State, j: nat)
    requires j < |items|
  {
    && items[j].status.Pending?
    && items[j].requestId !in s.requests && items[j].swapRef !in s.swaps
    && forall i :: 0 <= i < j ==> items[i].requestId != items[j].requestId && items[i].swapRef != items[j].swapRef
  }

  lemma NotKnownIsUnseen(items: seq<Item>, s: State, r: Candidate, now: string)
    requires !Known(items, s, ItemOf(r, now))
    ensures Unseen(items + [ItemOf(r, now)], s, |items|)
  {
    RefsAreNotEmpty(r, now);
  }

  /** Main result: ingestion only appends, every item it appends is pending and repeats no
      request id or swap reference, queued or processed, and so a queue without repeats stays
      without. */
  lemma {:induction false} IngestAddsOnlyNew(items: seq<Item>, s: State, records: seq<Candidate>, now: string)
    ensures items <= Ingest(items, s, records, now)
    ensures forall j :: |items| <= j < |Ingest(items, s, records, now)| ==> Unseen(Ingest(items, s, records, now), s, j)
    ensures Distinct(items) ==> Distinct(Ingest(items, s, records, now))
    decreases |records|
  {
    if records != [] {
      var n := |records| - 1;
      var before, after := Ingest(items, s, records[..n], now), Ingest(items, s, records, now);
      IngestAddsOnlyNew(items, s, records[..n], now);
      if after != before {
        NotKnownIsUnseen(before, s, records[n], now);
        UnseenExtends(before, s, |items|, ItemOf(records[n], now));
        if Distinct(items) {
          DistinctExtends(before, s, ItemOf(records[n], now));
        }
      }
    }
  }

  lemma UnseenExtends(items: seq<Item>, s: State, from: nat, item: Item)
    requires from <= |items|
    requires forall j :: from <= j < |items| ==> Unseen(items, s, j)
    requires Unseen(items + [item], s, |items|)
    ensures forall j :: from <= j < |items + [item]| ==> Unseen(items + [item], s, j)
  {
    forall j | from <= j < |items| ensures Unseen(items + [item], s, j) {
      assert Unseen(items, s, j);
      assert forall i :: 0 <= i <= j ==> (items + [item])[i] == items[i];
    }
  }

  lemma DistinctExtends(items: seq<Item>, s: State, item: Item)
    requires Distinct(items) && Unseen(items + [item], s, |items|)
    ensures Distinct(items + [item])
  {
    var all := items + [item];
    forall i, j | 0 <= i < j < |all|
      ensures (all[i].requestId != "" ==> all[i].requestId != all[j].requestId)
      ensures all[i].swapRef != "" ==> all[i].swapRef != all[j].swapRef
    {
      if j < |items| {
        assert all[i] == items[i] && all[j] == items[j];
      }
    }
  }

  /** What a second pass will find of a record. */
  predicate Taken(items: seq<Item>, s: State, r: Candidate) {
    Usable(r) ==> SwapKnown(items, s, SwapRefOf(r)) || (r.requestId != "" && RequestKnown(items, s, r.requestId))
  }

  lemma TakenLater(items: seq<Item>, more: seq<Item>, s: State, r: Candidate)
    requires Taken(items, s, r) && items <= more
    ensures Taken(more, s, r)
  {
    if SwapQueued(items, SwapRefOf(r)) {
      var i :| 0 <= i < |items| && items[i].swapRef == SwapRefOf(r);
      assert more[i] == items[i];
    }
    if RequestQueued(items, r.requestId) {
      var i :| 0 <= i < |items| && items[i].requestId == r.requestId;
      assert more[i] == items[i];
    }
  }

  lemma IngestOneTakes(items: seq<Item>, s: State, r: Candidate, now: string)
    requires r.requestId != ""
    ensures items <= IngestOne(items, s, r, now) && Taken(IngestOne(items, s, r, now), s, r)
  {
    var after := IngestOne(items, s, r, now);
    if after != items {
      RefsAreNotEmpty(r, now);
      assert after[|items|].swapRef == SwapRefOf(r);
    }
  }

  lemma {:induction false} IngestTakes(items: seq<Item>, s: State, records: seq<Candidate>, now: string, i: nat)
    requires i < |records| && records[i].requestId != ""
    ensures Taken(Ingest(items, s, records, now), s, records[i])
    decreases |records|
  {
    var n := |records| - 1;
    var before := Ingest(items, s, records[..n], now);
    if i == n {
      IngestOneTakes(before, s, records[n], now);
    } else {
      IngestTakes(items, s, records[..n], now, i);
      TakenLater(before, Ingest(items, s, records, now), s, records[i]);
    }
  }

  lemma {:induction false} KnownAddNothing(items: seq<Item>, s: State, records: seq<Candidate>, now: string)
    requires forall k :: 0 <= k < |records| && Usable(records[k]) ==> Known(items, s, ItemOf(records[k], now))
    ensures Ingest(items, s, records, now) == items
    decreases |records|
  {
    if records != [] {
      KnownAddNothing(items, s, records[..|records| - 1], now);
    }
  }

  lemma PrefixAddsNothing(items: seq<Item>, s: State, records: seq<Candidate>, now: string)
    requires records != [] && Ingest(items, s, records, now) == items
    ensures
      var n := |records| - 1;
      && Ingest(items, s, records[..n], now) == items
      && (Usable(records[n]) ==> Known(items, s, ItemOf(records[n], now)))
  {
    IngestAddsOnlyNew(items, s, records[..|records| - 1], now);
  }

  lemma {:induction false} AddNothingKnown(items: seq<Item>, s: State, records: seq<Candidate>, now: string, k: nat)
    requires Ingest(items, s, records, now) == items && k < |records| && Usable(records[k])
    ensures Known(items, s, ItemOf(records[k], now))
    decreases |records|
  {
    PrefixAddsNothing(items, s, records, now);
    if k < |records| - 1 {
      AddNothingKnown(items, s, records[..|records| - 1], now, k);
    }
  }

  /** A record without a request id that this pass would take: neither its swap reference nor the id
      made up for it is known. */
  predicate Nameless(items: seq<Item>, s: State, r: Candidate, now: string) {
    r.requestId == "" && Usable(r) && !Known(items, s, ItemOf(r, now))
  }

  /** Main result: ingesting one batch again, at any later time and with more items queued
      meanwhile, adds nothing if and only if no record without a request id is still unknown;
      records with an id are never taken twice. */
  lemma IngestTwiceAddsNothing(items: seq<Item>, s: State, records: seq<Candidate>, now: string, more: seq<Item>,
                               later: string)
    requires Ingest(items, s, records, now) <= more
    ensures Ingest(more, s, records, later) == more <==>
            forall k :: 0 <= k < |records| ==> !Nameless(more, s, records[k], later)
  {
    if forall k :: 0 <= k < |records| ==> !Nameless(more, s, records[k], later) {
      forall k | 0 <= k < |records| && Usable(records[k]) ensures Known(more, s, ItemOf(records[k], later)) {
        assert !Nameless(more, s, records[k], later);
        if records[k].requestId != "" {
          IngestTakes(items, s, records, now, k);
          TakenLater(Ingest(items, s, records, now), more, s, records[k]);
        }
      }
      KnownAddNothing(more, s, records, later);
    } else if Ingest(more, s, records, later) == more {
      var k :| 0 <= k < |records| && Nameless(more, s, records[k], later);
      AddNothingKnown(more, s, records, later, k);
    }
  }

  /** Such records exist: of two swaps of one wallet to one destination, both without a request id, a
      pass takes the first and skips the second, whose made-up id is the same; the next pass
      takes that one too. */
  lemma SecondSwapWaitsForNextPass(x: Candidate, y: Candidate, now: string, later: string)
    requires Usable(x) && x.requestId == "" && x.swapRef != "" && now != later
    requires y == x.(swapRef := y.swapRef) && y.swapRef != "" && y.swapRef != x.swapRef
    ensures
      var s := State([], [], 0, 0, map[]);
      && Ingest([], s, [x, y], now) == [ItemOf(x, now)]
      && Ingest([ItemOf(x, now)], s, [x, y], later) == [ItemOf(x, now), ItemOf(y, later)]
  {
    var s := State([], [], 0, 0, map[]);
    TwoRecords([], s, x, y, now);
    TwoRecords([ItemOf(x, now)], s, x, y, later);
    FirstIsTaken(s, x, now);
    SecondIsSkipped(s, x, y, now);
    SecondIsTakenLater(s, x, y, now, later);
  }

  lemma FirstIsTaken(s: State, x: Candidate, now: string)
    requires Usable(x) && s.requests == [] && s.swaps == []
    ensures IngestOne([], s, x, now) == [ItemOf(x, now)]
  {
    assert !Known([], s, ItemOf(x, now)) && [] + [ItemOf(x, now)] == [ItemOf(x, now)];
  }

  lemma SecondIsSkipped(s: State, x: Candidate, y: Candidate, now: string)
    requires x.requestId == "" && y == x.(swapRef := y.swapRef)
    ensures IngestOne([ItemOf(x, now)], s, y, now) == [ItemOf(x, now)]
  {
    RefsAreNotEmpty(y, now);
    assert [ItemOf(x, now)][0].requestId == RequestIdOf(y, now);
  }

  lemma SecondIsTakenLater(s: State, x: Candidate, y: Candidate, now: string, later: string)
    requires Usable(x) && x.requestId == "" && x.swapRef != "" && now != later && s.requests == [] && s.swaps == []
    requires y == x.(swapRef := y.swapRef) && y.swapRef != "" && y.swapRef != x.swapRef
    ensures IngestOne([ItemOf(x, now)], s, x, later) == [ItemOf(x, now)]
    ensures IngestOne([ItemOf(x, now)], s, y, later) == [ItemOf(x, now), ItemOf(y, later)]
  {
    var first := [ItemOf(x, now)];
    assert first[0].swapRef == SwapRefOf(x);
    assert Known(first, s, ItemOf(x, later));
    MadeUpIdsDiffer(y, now, later);
    assert !Known(first, s, ItemOf(y, later)) && first + [ItemOf(y, later)] == [ItemOf(x, now), ItemOf(y, later)];
  }

  lemma MadeUpIdsDiffer(r: Candidate, now: string, later: string)
    requires r.requestId == "" && now != later
    ensures RequestIdOf(r, now) != RequestIdOf(r, later)
  {
    var stem := "auto_" + Text.AsciiUpper(Text.Trim(r.wallet)) + "_" + Text.AsciiLower(Text.Trim(r.destination)) + "_";
    assert RequestIdOf(r, later) == stem + later && RequestIdOf(r, now) == stem + now;
    assert (stem + now)[|stem|..] == now && (stem + later)[|stem|..] == later;
  }

  lemma TwoRecords(items: seq<Item>, s: State, x: Candidate, y: Candidate, now: string)
    ensures Ingest(items, s, [x, y], now) == IngestOne(IngestOne(items, s, x, now), s, y, now)
  {
    assert [x, y][..1] == [x] && [x][..0] == [];
    assert Ingest(items, s, [x], now) == IngestOne(items, s, x, now);
  }

  method BuildExistingRequestIds(items: seq<Item>, s: State) returns (ids: set<string>)
    ensures forall id :: id in ids <==> RequestKnown(items, s, id)
  {
    ids := set id | id in s.requests;
    for i := 0 to |items|
      invariant forall id :: id in ids <==> RequestKnown(items[..i], s, id)
    {
      QueuedGrows(items, i);
      if items[i].requestId != "" {
        ids := ids + {items[i].requestId};
      }
    }
    assert items[..|items|] == items;
  }

  method BuildExistingSwapRefs(items: seq<Item>, s: State) returns (refs: set<string>)
    ensures forall ref :: ref in refs <==> SwapKnown(items, s, ref)
  {
    refs := set ref | ref in s.swaps;
    for i := 0 to |items|
      invariant forall ref :: ref in refs <==> SwapKnown(items[..i], s, ref)
    {
      QueuedGrows(items, i);
      if items[i].swapRef != "" {
        refs := refs + {items[i].swapRef};
      }
    }
    assert items[..|items|] == items;
  }

  lemma QueuedGrowsBy(items: seq<Item>, item: Item, key: string)
    ensures RequestQueued(items + [item], key) <==> RequestQueued(items, key) || item.requestId == key
    ensures SwapQueued(items + [item], key) <==> SwapQueued(items, key) || item.swapRef == key
  {
    var all := items + [item];
    assert all[|items|] == item;
    assert forall i :: 0 <= i < |items| ==> all[i] == items[i];
  }

  lemma QueuedGrows(items: seq<Item>, n: nat)
    requires n < |items|
    ensures forall id :: RequestQueued(items[..n + 1], id) <==>
        RequestQueued(items[..n], id) || items[n].requestId == id
    ensures forall ref :: SwapQueued(items[..n + 1], ref) <==> SwapQueued(items[..n], ref) || items[n].swapRef == ref
  {
    assert items[..n + 1] == items[..n] + [items[n]];
    forall key
      ensures RequestQueued(items[..n + 1], key) <==> RequestQueued(items[..n], key) || items[n].requestId == key
      ensures SwapQueued(items[..n + 1], key) <==> SwapQueued(items[..n], key) || items[n].swapRef == key
    {
      QueuedGrowsBy(items[..n], items[n], key);
    }
  }

  lemma KnownGrows(items: seq<Item>, s: State, item: Item)
    requires item.requestId != "" && item.swapRef != ""
    ensures forall id :: RequestKnown(items + [item], s, id) <==> RequestKnown(items, s, id) || id == item.requestId
    ensures forall ref :: SwapKnown(items + [item], s, ref) <==> SwapKnown(items, s, ref) || ref == item.swapRef
  {
    forall key
      ensures RequestKnown(items + [item], s, key) <==> RequestKnown(items, s, key) || key == item.requestId
      ensures SwapKnown(items + [item], s, key) <==> SwapKnown(items, s, key) || key == item.swapRef
    {
      QueuedGrowsBy(items, item, key);
    }
  }

  /** One record, with both sets of known keys. */
  method TakeRecord(items: seq<Item>, requests: set<string>, swaps: set<string>, ghost s: State, r: Candidate,
                    now: string)
    returns (queue: seq<Item>, ids: set<string>, refs: set<string>, taken: bool)
    requires forall id :: id in requests <==> RequestKnown(items, s, id)
    requires forall ref :: ref in swaps <==> SwapKnown(items, s, ref)
    ensures queue == IngestOne(items, s, r, now) && |queue| == |items| + if taken then 1 else 0
    ensures forall id :: id in ids <==> RequestKnown(queue, s, id)
    ensures forall ref :: ref in refs <==> SwapKnown(queue, s, ref)
  {
    var item := ItemOf(r, now);
    if !Usable(r) || item.requestId in requests || item.swapRef in swaps {
      return items, requests, swaps, false;
    }
    RefsAreNotEmpty(r, now);
    KnownGrows(items, s, item);
    return items + [item], requests + {item.requestId}, swaps + {item.swapRef}, true;
  }

  /** The loop of `autoIngestQueue`, which keeps both sets of known keys as it goes. */
  method AutoIngestQueue(items: seq<Item>, s: State, payload: seq<Candidate>, maxItems: nat, now: string)
    returns (queue: seq<Item>, added: nat, skipped: nat)
    ensures var records := payload[..if maxItems < |payload| then maxItems else |payload|];
      && queue == Ingest(items, s, records, now)
      && added == |queue| - |items|
      && added + skipped == |records|
  {
    var records := payload[..if maxItems < |payload| then maxItems else |payload|];
    var requests := BuildExistingRequestIds(items, s);
    var swaps := BuildExistingSwapRefs(items, s);
    queue, added, skipped := items, 0, 0;
    for i := 0 to |records|
      invariant queue == Ingest(items, s, records[..i], now)
      invariant forall id :: id in requests <==> RequestKnown(queue, s, id)
      invariant forall ref :: ref in swaps <==> SwapKnown(queue, s, ref)
      invariant |queue| == |items| + added && added + skipped == i
    {
      assert records[..i + 1][..i] == records[..i];
      var taken;
      queue, requests, swaps, taken := TakeRecord(queue, requests, swaps, s, records[i], now);
      if taken {
        added := added + 1;
      } else {
        skipped := skipped + 1;
      }
    }
    assert records[..|records|] == records;
  }

  /** What a record is taken as, and when: its wallet and destination trimmed, the wallet in capitals, made-up keys
      where it has none, and only if it is usable and neither key is known. */
  lemma IngestOneIs(items: seq<Item>, s: State, r: Candidate, now: string)
    ensures
      var wallet, destination := Text.AsciiUpper(Text.Trim(r.wallet)), Text.Trim(r.destination);
      var id := if r.requestId != "" then r.requestId
          else "auto_" + wallet + "_" + Text.AsciiLower(destination) + "_" + now;
      var ref := if r.swapRef != "" then r.swapRef else "auto_swap_" + wallet + "_" + Text.AsciiLower(destination);
      IngestOne(items, s, r, now) ==
      if || Text.Trim(r.wallet) == "" || r.amount <= 0 || !EvmAddress(destination)
         || id in s.requests || ref in s.swaps
         || exists i :: 0 <= i < |items| && (items[i].requestId == id || items[i].swapRef == ref)
      then items
      else items + [Item(id, wallet, destination, r.amount, ref, Pending, 0, NoNote, "")]
  {
    RefsAreNotEmpty(r, now);
  }

  /** "0x" and forty hexadecimal digits. */
  predicate EvmAddress(a: string) {
    && |a| == 42 && a[..2] == "0x"
    && forall i :: 2 <= i < 42 ==>
                     var n := a[i] as int; 48 <= n <= 57 || 65 <= n <= 70 || 97 <= n <= 102
  }
}
