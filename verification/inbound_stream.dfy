/**
 * The mock inbound edge stream of the Jet execution engine: a FIFO deque of
 * items drained in chunks of at most `chunkSize`, stopped by the `DONE_ITEM`
 * sentinel, with a special broadcast item that is either forwarded alone or
 * held back as a pending item for the next call.
 */
module InboundStream {
  import opened Wrappers

  /** An item on the edge: ordinary data, a special broadcast item, or the `DONE_ITEM` sentinel. */
  datatype Item = Data(payload: int) | Broadcast(tag: int) | DoneItem

  /** The progress a single `drainTo` call reports. */
  datatype ProgressState = WasAlreadyDone | MadeProgress | NoProgress | Done

  /**
   * The stream's state: the deque `data` (head first), the chunk size, the
   * pending broadcast item (by tag) and the `done` flag.
   */
  datatype Stream = Stream(
    priority: int,
    ordinal: int,
    data: seq<Item>,
    chunkSize: int,
    pending: Option<int>,
    done: bool)

  /** A stream never holds a pending item once it is done. */
  predicate Wf(s: Stream) {
    !(s.done && s.pending.Some?)
  }

  /** The items the stream still owes its consumer, in the order it will hand them out. */
  function Content(s: Stream): seq<Item> {
    PendingItems(s.pending) + s.data
  }

  function PendingItems(p: Option<int>): seq<Item> {
    if p.Some? then [Broadcast(p.value)] else []
  }

  function DoneMarker(b: bool): seq<Item> {
    if b then [DoneItem] else []
  }

  /** The constructor: a fresh stream over `items`, neither done nor holding a pending item. */
  function Create(priority: int, items: seq<Item>, chunkSize: int): (s: Stream)
    ensures Wf(s) && !s.done
    ensures s.pending == None && s.data == items
    ensures Content(s) == items
    ensures s.chunkSize == chunkSize && s.priority == priority && s.ordinal == 0
  {
    Stream(priority, 0, items, chunkSize, None, false)
  }

  /** `push(items...)`: appends `items` at the tail of the deque. */
  function Push(s: Stream, items: seq<Item>): (t: Stream)
    ensures Content(t) == Content(s) + items
    ensures t.done == s.done && t.pending == s.pending && t.chunkSize == s.chunkSize
  {
    s.(data := s.data + items)
  }

  function IsDone(s: Stream): bool {
    s.done
  }

  /** `sizes()`: the number of items left in the deque (a pending item is not counted). */
  function Sizes(s: Stream): int {
    |s.data|
  }

  /** Why the chunk loop of `drainTo` stopped. */
  datatype StopReason =
    | Exhausted   // chunkSize items polled, or the deque ran empty
    | MetDone     // polled DONE_ITEM
    | Forwarded   // polled a broadcast item as the first item of the call
    | HeldBack    // polled a broadcast item after some data items

  /** Where the chunk loop stopped: it polled the first `polled` items of the deque. */
  datatype Scan = Scan(polled: nat, stop: StopReason)

  /** How many of the polled items are handed to the consumer. */
  function EmitCount(sc: Scan): nat {
    match sc.stop
    case Exhausted => sc.polled
    case Forwarded => 1
    case _ => if sc.polled > 0 then sc.polled - 1 else 0
  }

  /** How many of the polled items are data items that were handed out. */
  function DataRun(sc: Scan): nat {
    if sc.stop == Forwarded then 0 else EmitCount(sc)
  }

  /**
   * The `for` loop of `drainTo`, from iteration `i` on (the first `i` items
   * already polled were data): stop when `i` reaches `chunkSize` or the deque
   * runs empty; `DONE_ITEM` stops the loop; a broadcast item stops it and is
   * forwarded when it is the first item of the call, held back otherwise.
   */
  function ScanFrom(data: seq<Item>, chunkSize: int, i: nat): (sc: Scan)
    requires i <= |data|
    ensures i <= sc.polled <= |data|
    ensures sc.polled <= if chunkSize > i then chunkSize else i
    ensures i < chunkSize && i < |data| ==> i < sc.polled
    ensures forall k :: i <= k < DataRun(sc) ==> data[k].Data?
    ensures sc.stop == MetDone ==> i < sc.polled && data[sc.polled - 1] == DoneItem
    ensures sc.stop == Forwarded ==> i == 0 && sc.polled == 1 && data[0].Broadcast?
    ensures sc.stop == HeldBack ==> i < sc.polled && 1 < sc.polled && data[sc.polled - 1].Broadcast?
    ensures sc.stop == Exhausted ==> sc.polled == |data| || sc.polled >= chunkSize
    decreases |data| - i
  {
    if !(i < chunkSize) || i == |data| then Scan(i, Exhausted)
    else if data[i] == DoneItem then Scan(i + 1, MetDone)
    else if data[i].Broadcast? then
      (if i == 0 then Scan(1, Forwarded) else Scan(i + 1, HeldBack))
    else ScanFrom(data, chunkSize, i + 1)
  }

  /** The outcome of one `drainTo` call: the new state, the items handed to `dest`, the progress. */
  datatype Drained = Drained(stream: Stream, emitted: seq<Item>, progress: ProgressState)

  /** `drainTo(dest)`. */
  function DrainTo(s: Stream): (r: Drained)
    // at most chunkSize items leave the deque
    ensures |s.data| - |r.stream.data| <= if s.chunkSize > 0 then s.chunkSize else 0
    // DONE_ITEM is the only way to reach Done, and a done stream stays done
    ensures r.progress == Done <==> !s.done && r.stream.done
    ensures s.done ==> r.stream.done
    ensures r.stream.chunkSize == s.chunkSize && r.stream.priority == s.priority
  {
    if s.done then
      Drained(s, [], WasAlreadyDone)
    else if s.pending.Some? then
      Drained(s.(pending := None), [Broadcast(s.pending.value)], MadeProgress)
    else if |s.data| == 0 then
      Drained(s, [], NoProgress)
    else
      var c := ChunkOf(s.data, s.chunkSize);
      Drained(s.(data := c.rest, pending := c.pending, done := c.hitDone),
              c.emitted, if c.hitDone then Done else MadeProgress)
  }

  /** What one run of the chunk loop hands out and leaves behind. */
  datatype Chunk = Chunk(emitted: seq<Item>, rest: seq<Item>, pending: Option<int>, hitDone: bool)

  function ChunkOf(data: seq<Item>, chunkSize: int): (c: Chunk)
    ensures |data| - |c.rest| <= if chunkSize > 0 then chunkSize else 0
    ensures chunkSize > 0 && |data| > 0 ==> |c.rest| < |data|
  {
    var sc := ScanFrom(data, chunkSize, 0);
    var n := sc.polled;
    Chunk(data[..EmitCount(sc)], data[n..],
          if sc.stop == HeldBack then Some(data[n - 1].tag) else None,
          sc.stop == MetDone)
  }

  /** Once `done` is set, a call reports WAS_ALREADY_DONE, hands out nothing and changes nothing. */
  lemma DrainWhenDone(s: Stream)
    requires s.done
    ensures DrainTo(s).progress == WasAlreadyDone
    ensures DrainTo(s).emitted == [] && DrainTo(s).stream == s
  {
  }

  /** A pending broadcast item goes out alone, is cleared, and the deque is not touched. */
  lemma DrainPendingFirst(s: Stream)
    requires !s.done && s.pending.Some?
    ensures DrainTo(s).emitted == [Broadcast(s.pending.value)]
    ensures DrainTo(s).stream == s.(pending := None)
    ensures DrainTo(s).progress == MadeProgress
  {
  }

  /** With no pending item and an empty deque, a call reports NO_PROGRESS and changes nothing. */
  lemma DrainWhenEmpty(s: Stream)
    requires !s.done && s.pending.None? && |s.data| == 0
    ensures DrainTo(s).progress == NoProgress
    ensures DrainTo(s).emitted == [] && DrainTo(s).stream == s
  {
  }

  /** Each call removes a prefix of the deque. */
  lemma DrainTakesPrefix(s: Stream)
    ensures var r := DrainTo(s);
            |r.stream.data| <= |s.data| && r.stream.data == s.data[|s.data| - |r.stream.data|..]
  {
  }

  /**
   * No item is lost or reordered by a call: what it hands out, the
   * `DONE_ITEM` sentinel if it met it, and what the stream still owes make up
   * what the stream owed before.
   */
  lemma DrainToConserves(s: Stream)
    ensures var r := DrainTo(s);
            Content(s) == r.emitted + DoneMarker(r.progress == Done) + Content(r.stream)
  {
    if s.done {
      assert DrainTo(s) == Drained(s, [], WasAlreadyDone);
    } else if s.pending.None? && |s.data| > 0 {
      ChunkConserves(s.data, s.chunkSize);
    }
  }

  /** The chunk loop's share of `DrainToConserves`: the deque is what was handed out, met, held back, and left. */
  lemma ChunkConserves(data: seq<Item>, chunkSize: int)
    ensures var c := ChunkOf(data, chunkSize);
            data == c.emitted + DoneMarker(c.hitDone) + PendingItems(c.pending) + c.rest
  {
    var sc := ScanFrom(data, chunkSize, 0);
    var n := sc.polled;
    if sc.stop == Exhausted || sc.stop == Forwarded {
      assert data == data[..n] + data[n..];
    } else {
      assert data == data[..n - 1] + [data[n - 1]] + data[n..];
    }
  }

  /** What a call hands out is never `DONE_ITEM`, and a broadcast item only ever goes out alone. */
  lemma DrainToEmitsNoSentinel(s: Stream)
    ensures var r := DrainTo(s);
            && DoneItem !in r.emitted
            && ((forall k :: 0 <= k < |r.emitted| ==> r.emitted[k].Data?)
                || (|r.emitted| == 1 && r.emitted[0].Broadcast?))
  {
    if !s.done && s.pending.None? && |s.data| > 0 {
      var sc := ScanFrom(s.data, s.chunkSize, 0);
      if sc.stop != Forwarded {
        var e := s.data[..EmitCount(sc)];
        assert forall k :: 0 <= k < |e| ==> e[k] == s.data[k];
        assert forall k :: 0 <= k < |e| ==> e[k].Data?;
      }
    }
  }

  /** A well-formed stream stays well-formed: done and a pending item never meet. */
  lemma DrainToKeepsWf(s: Stream)
    requires Wf(s)
    ensures Wf(DrainTo(s).stream)
  {
  }

  /** With a positive chunk size, a live stream that owes items always hands out or consumes one. */
  lemma DrainMakesProgress(s: Stream)
    requires !s.done && s.chunkSize > 0 && |Content(s)| > 0
    ensures |Content(DrainTo(s).stream)| < |Content(s)|
    ensures DrainTo(s).progress == MadeProgress || DrainTo(s).progress == Done
  {
  }

  /** A broadcast item at the head of the deque is handed out alone and ends the call. */
  lemma BroadcastFirstIsForwardedAlone(s: Stream)
    requires !s.done && s.pending.None? && s.chunkSize > 0
    requires |s.data| > 0 && s.data[0].Broadcast?
    ensures DrainTo(s).emitted == [s.data[0]]
    ensures DrainTo(s).stream.data == s.data[1..]
    ensures DrainTo(s).stream.pending == None
    ensures DrainTo(s).progress == MadeProgress
  {
  }

  /** Data items before position `k` of the deque. */
  predicate DataPrefix(data: seq<Item>, k: nat)
    requires k <= |data|
  {
    forall j :: 0 <= j < k ==> data[j].Data?
  }

  /** The chunk loop hands out a run of data items and stops at the first non-data item. */
  lemma {:induction false} ScanStopsAtFirstNonData(data: seq<Item>, chunkSize: int, i: nat, k: nat)
    requires i <= k < |data| && k < chunkSize
    requires forall j :: i <= j < k ==> data[j].Data?
    requires !data[k].Data?
    ensures ScanFrom(data, chunkSize, i).polled == k + 1
    ensures ScanFrom(data, chunkSize, i).stop ==
              if data[k] == DoneItem then MetDone else if k == 0 then Forwarded else HeldBack
    decreases k - i
  {
    if i < k {
      ScanStopsAtFirstNonData(data, chunkSize, i + 1, k);
    }
  }

  /**
   * A broadcast item met after `k > 0` data items is not handed out in this
   * call but kept as pending; the next call hands it out alone.
   */
  lemma BroadcastAfterDataIsHeldBack(s: Stream, k: nat)
    requires !s.done && s.pending.None?
    requires 0 < k < |s.data| && k < s.chunkSize
    requires DataPrefix(s.data, k) && s.data[k].Broadcast?
    ensures DrainTo(s).emitted == s.data[..k]
    ensures DrainTo(s).stream.pending == Some(s.data[k].tag)
    ensures DrainTo(s).stream.data == s.data[k + 1..]
    ensures DrainTo(s).progress == MadeProgress
    ensures DrainTo(DrainTo(s).stream).emitted == [s.data[k]]
    ensures DrainTo(DrainTo(s).stream).stream.data == s.data[k + 1..]
  {
    ScanStopsAtFirstNonData(s.data, s.chunkSize, 0, k);
  }

  /** `DONE_ITEM` after `k` data items: the data goes out, the sentinel does not, and the stream is done. */
  lemma DoneItemEndsTheStream(s: Stream, k: nat)
    requires !s.done && s.pending.None?
    requires k < |s.data| && k < s.chunkSize
    requires DataPrefix(s.data, k) && s.data[k] == DoneItem
    ensures DrainTo(s).emitted == s.data[..k]
    ensures DrainTo(s).stream.data == s.data[k + 1..]
    ensures DrainTo(s).stream.done && DrainTo(s).progress == Done
    ensures DrainTo(DrainTo(s).stream).progress == WasAlreadyDone
  {
    ScanStopsAtFirstNonData(s.data, s.chunkSize, 0, k);
  }

  /** `push` adds to the tail, and `sizes()` counts exactly the items pushed. */
  lemma PushThenSizes(s: Stream, items: seq<Item>)
    ensures Sizes(Push(s, items)) == Sizes(s) + |items|
    ensures Push(s, items).data[..|s.data|] == s.data
    ensures DrainTo(Push(s, items)).progress == WasAlreadyDone <==> IsDone(s)
  {
    assert (s.data + items)[..|s.data|] == s.data;
  }

  /** The result of draining `n` times in a row. */
  datatype Trace = Trace(stream: Stream, emitted: seq<Item>)

  function DrainTimes(s: Stream, n: nat): Trace
    decreases n
  {
    if n == 0 then Trace(s, [])
    else
      var r := DrainTo(s);
      var t := DrainTimes(r.stream, n - 1);
      Trace(t.stream, r.emitted + t.emitted)
  }

  lemma {:induction false} DrainTimesWhenDone(s: Stream, n: nat)
    requires s.done
    ensures DrainTimes(s, n) == Trace(s, [])
    decreases n
  {
    if n > 0 {
      DrainTimesWhenDone(s, n - 1);
    }
  }

  /**
   * Over any number of calls the consumer receives the stream's items in FIFO
   * order and nothing is lost: what was handed out, the `DONE_ITEM` sentinel
   * if it was met, and what is still owed make up the original content.
   */
  lemma {:induction false} DrainTimesIsFifo(s: Stream, n: nat)
    requires !s.done
    ensures var t := DrainTimes(s, n);
            Content(s) == t.emitted + DoneMarker(t.stream.done) + Content(t.stream)
    decreases n
  {
    if n > 0 {
      var r := DrainTo(s);
      var t := DrainTimes(r.stream, n - 1);
      DrainToConserves(s);
      if r.stream.done {
        DrainTimesWhenDone(r.stream, n - 1);
      } else {
        DrainTimesIsFifo(r.stream, n - 1);
      }
      Chain(Content(s), r.emitted, r.stream, t);
    }
  }

  /** Gluing one call's conservation equation to the rest of the run. */
  lemma Chain(before: seq<Item>, first: seq<Item>, mid: Stream, t: Trace)
    requires before == first + DoneMarker(mid.done) + Content(mid)
    requires mid.done ==> t == Trace(mid, [])
    requires !mid.done ==> Content(mid) == t.emitted + DoneMarker(t.stream.done) + Content(t.stream)
    ensures before == (first + t.emitted) + DoneMarker(t.stream.done) + Content(t.stream)
  {
    if !mid.done {
      var rest := DoneMarker(t.stream.done) + Content(t.stream);
      assert first + (t.emitted + rest) == (first + t.emitted) + rest;
    }
  }

  /** Over any number of calls the `DONE_ITEM` sentinel is never handed out. */
  lemma {:induction false} DrainTimesNeverEmitsDone(s: Stream, n: nat)
    ensures forall k :: 0 <= k < |DrainTimes(s, n).emitted| ==> DrainTimes(s, n).emitted[k] != DoneItem
    decreases n
  {
    if n > 0 {
      var r := DrainTo(s);
      var t := DrainTimes(r.stream, n - 1);
      DrainToEmitsNoSentinel(s);
      DrainTimesNeverEmitsDone(r.stream, n - 1);
      var e := r.emitted + t.emitted;
      assert forall k :: |r.emitted| <= k < |e| ==> e[k] == t.emitted[k - |r.emitted|];
    }
  }

  /** `drainTo(dest)` written as in the source, with its loop in `ChunkLoop`. */
  method DrainLoop(s: Stream) returns (r: Drained)
    ensures r == DrainTo(s)
  {
    if s.done {
      return Drained(s, [], WasAlreadyDone);
    }
    if s.pending.Some? {
      return Drained(s.(pending := None), [Broadcast(s.pending.value)], MadeProgress);
    }
    if |s.data| == 0 {
      return Drained(s, [], NoProgress);
    }
    var c := ChunkLoop(s.data, s.chunkSize);
    r := Drained(s.(data := c.rest, pending := c.pending, done := c.hitDone), c.emitted,
                 if c.hitDone then Done else MadeProgress);
  }

  /** The `for` loop of `drainTo`: poll the head, test it, break. */
  method ChunkLoop(items: seq<Item>, chunkSize: int) returns (c: Chunk)
    ensures c == ChunkOf(items, chunkSize)
  {
    var data := items;
    var emitted: seq<Item> := [];
    var i: nat := 0;
    while i < chunkSize && |data| > 0
      invariant i <= |items| && data == items[i..] && emitted == items[..i]
      invariant ScanFrom(items, chunkSize, i) == ScanFrom(items, chunkSize, 0)
      decreases |data|
    {
      var item := data[0];
      data := data[1..];
      if item == DoneItem {
        return Chunk(emitted, data, None, true);
      }
      if item.Broadcast? {
        if i == 0 {
          return Chunk([item], data, None, false);
        }
        return Chunk(emitted, data, Some(item.tag), false);
      }
      emitted := emitted + [item];
      i := i + 1;
    }
    c := Chunk(emitted, data, None, false);
  }
}
