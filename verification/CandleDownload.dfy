/** One pair-month, fetched chunk by chunk into a partial store that outlives the session. */
module CandleDownload {
  import opened Basics
  import opened Sorting
  import opened CandleChunks

  /** What asking for one chunk comes to. */
  datatype Reply = Served(candles: seq<Candle>) | HaltFirst | NotFound | Failed

  datatype SessionEnd = Finalized(rows: seq<MinuteRow>) | Halted | Unavailable | Threw

  /** An honest exchange: inside the chunk, it serves exactly what was traded. */
  ghost predicate Honest(reply: Reply, chunk: ChunkWindow, tape: seq<Candle>) {
    reply.Served? ==> Inside(reply.candles, chunk.startSec, chunk.endSec) == Inside(tape, chunk.startSec, chunk.endSec)
  }

  predicate EarlierMinute(x: MinuteRow, y: MinuteRow) {
    x.minuteSec < y.minuteSec
  }

  /** The partial store: the minutes table, keyed by minute, and the set of chunks already in it. */
  class PartialStore {
    var minutes: seq<MinuteRow>
    var chunks: set<nat>

    constructor ()
      ensures minutes == [] && chunks == {}
    {
      minutes, chunks := [], {};
    }

    /** One transaction: every row and the mark, or nothing when a minute is already there. */
    method WriteChunk(index: nat, rows: seq<MinuteRow>) returns (ok: bool)
      modifies this
      ensures ok <==> index !in old(chunks) && DistinctMinutes(old(minutes) + rows)
      ensures ok ==> minutes == old(minutes) + rows && chunks == old(chunks) + {index}
      ensures !ok ==> minutes == old(minutes) && chunks == old(chunks)
    {
      ok := index !in chunks && DistinctMinutes(minutes + rows);
      if ok {
        minutes, chunks := minutes + rows, chunks + {index};
      }
    }

    /** The whole table, in order of its key. */
    method ReadMinutes() returns (rows: seq<MinuteRow>)
      ensures multiset(rows) == multiset(minutes)
      ensures forall i, j :: 0 <= i < j < |rows| ==> rows[i].minuteSec <= rows[j].minuteSec
    {
      SortSorted(minutes, EarlierMinute);
      rows := Sort(minutes, EarlierMinute);
      assert forall i, j :: 0 <= i < j < |rows| ==> !EarlierMinute(rows[j], rows[i]);
    }

    method Discard()
      modifies this
      ensures minutes == [] && chunks == {}
    {
      minutes, chunks := [], {};
    }
  }

  predicate DistinctMinutes(rows: seq<MinuteRow>) {
    forall i, j :: 0 <= i < j < |rows| ==> rows[i].minuteSec != rows[j].minuteSec
  }

  // ----- what a store holds between sessions

  /** The month being collected. */
  datatype Month = Month(startSec: int, endSec: int, barSec: BarSec)

  function ChunksOf(m: Month): seq<ChunkWindow> {
    ChunksFrom(0, m.startSec, m.endSec, m.barSec)
  }

  /** Where the first n chunks end. */
  ghost function Boundary(m: Month, n: nat): int
    requires n <= |ChunksOf(m)|
  {
    if n == 0 then m.startSec else ChunksOf(m)[n - 1].endSec
  }

  /** The first n chunks are in, and they hold what one call up to their end would give. */
  ghost predicate Stores(minutes: seq<MinuteRow>, chunks: set<nat>, m: Month, tape: seq<Candle>, n: nat) {
    && n <= |ChunksOf(m)|
    && (forall k :: k in chunks <==> 0 <= k < n)
    && MinutesFor(m.startSec, Boundary(m, n), tape, m.barSec) == Rows(minutes)
  }

  ghost predicate Ascends(rows: seq<MinuteRow>) {
    forall j, k :: 0 <= j < k < |rows| ==> rows[j].minuteSec < rows[k].minuteSec
  }

  lemma {:induction false} RowsAscend(byMinute: map<int, Candle>, sec: int, endSec: int, barSec: BarSec)
    ensures Ascends(RowsFrom(byMinute, sec, endSec, barSec))
    ensures forall r :: r in RowsFrom(byMinute, sec, endSec, barSec) ==> sec <= r.minuteSec < endSec
    decreases endSec - sec
  {
    if sec < endSec {
      RowsUnfold(byMinute, sec, endSec, barSec);
      RowsAscend(byMinute, sec + barSec, endSec, barSec);
      PrependAscends(RowAt(byMinute, sec), RowsFrom(byMinute, sec + barSec, endSec, barSec));
    }
  }

  lemma PrependAscends(row: MinuteRow, rest: seq<MinuteRow>)
    requires Ascends(rest) && forall r :: r in rest ==> row.minuteSec < r.minuteSec
    ensures Ascends([row] + rest)
  {
  }

  lemma {:induction false} RowsCount(byMinute: map<int, Candle>, sec: int, endSec: int, barSec: BarSec)
    requires (endSec - sec) % barSec == 0 && sec <= endSec
    ensures |RowsFrom(byMinute, sec, endSec, barSec)| * barSec == endSec - sec
    decreases endSec - sec
  {
    if sec < endSec {
      hide RowsFrom;
      RowsUnfold(byMinute, sec, endSec, barSec);
      DivShift(endSec - sec, barSec, -1);
      StepFits(endSec - sec, barSec);
      RowsCount(byMinute, sec + barSec, endSec, barSec);
      OneMore(|RowsFrom(byMinute, sec + barSec, endSec, barSec)|, barSec);
    }
  }

  lemma OneMore(n: int, b: int)
    ensures (1 + n) * b == b + n * b
  {
  }

  /** Rows in minute order with the contents of ascending rows are those rows. */
  lemma {:induction false} OrderedIsAscending(rows: seq<MinuteRow>, table: seq<MinuteRow>)
    requires Ascends(table) && multiset(rows) == multiset(table)
    requires forall i, j :: 0 <= i < j < |rows| ==> rows[i].minuteSec <= rows[j].minuteSec
    ensures rows == table
  {
    SortedUnique(table, rows, EarlierMinute);
  }

  lemma BoundaryAligned(m: Month, n: nat)
    requires n <= |ChunksOf(m)| && (m.endSec - m.startSec) % m.barSec == 0
    ensures m.startSec <= Boundary(m, n) && (Boundary(m, n) - m.startSec) % m.barSec == 0
    ensures n < |ChunksOf(m)|
       ==> ChunksOf(m)[n].startSec == Boundary(m, n) && ChunksOf(m)[n].index == n
           && ChunksOf(m)[n].endSec == Boundary(m, n + 1)
    ensures n < |ChunksOf(m)| ==> Boundary(m, n) < Boundary(m, n + 1)
    ensures n == |ChunksOf(m)| && m.startSec <= m.endSec ==> Boundary(m, n) == m.endSec
  {
    hide ChunksOf;
    PartitionOf(m);
    if n > 0 {
      BoundaryAligned(m, n - 1);
      var c := ChunksOf(m)[n - 1];
      assert c in ChunksOf(m);
      SumAligned(Boundary(m, n - 1) - m.startSec, c.endSec - c.startSec, m.barSec);
    }
    if n < |ChunksOf(m)| {
      var c := ChunksOf(m)[n];
      assert c.index == 0 + n && Continues(ChunksOf(m), n, m.startSec);
    }
  }

  lemma PartitionOf(m: Month)
    ensures Partitions(ChunksOf(m), 0, m.startSec, m.endSec, m.barSec)
    ensures (m.endSec - m.startSec) % m.barSec == 0
       ==> forall c :: c in ChunksOf(m) ==> (c.endSec - c.startSec) % m.barSec == 0
  {
    ChunksPartition(0, m.startSec, m.endSec, m.barSec);
  }

  lemma SumAligned(x: int, y: int, n: int)
    requires n > 0 && x % n == 0 && y % n == 0
    ensures (x + y) % n == 0
  {
    DivShift(x, n, y / n);
    assert y == y / n * n;
  }

  /** Storing the next chunk keeps the store a prefix of the whole. */
  lemma NextChunkFits(minutes: seq<MinuteRow>, chunks: set<nat>, m: Month, tape: seq<Candle>, n: nat,
      candles: seq<Candle>)
    requires Stores(minutes, chunks, m, tape, n) && n < |ChunksOf(m)| && (m.endSec - m.startSec) % m.barSec == 0
    requires Honest(Served(candles), ChunksOf(m)[n], tape)
    ensures var c := ChunksOf(m)[n];
            var got := MinutesFor(c.startSec, c.endSec, candles, m.barSec);
            && (got.Rows?
                ==> Stores(minutes + got.rows, chunks + {n}, m, tape, n + 1) && DistinctMinutes(minutes + got.rows))
            && (got.Refused? ==> MinutesFor(m.startSec, Boundary(m, n + 1), tape, m.barSec).Refused?)
  {
    hide ChunksOf, MinutesFor, Inside;
    var c := ChunksOf(m)[n];
    BoundaryAligned(m, n);
    SameInsideSameRows(candles, tape, c.startSec, c.endSec, m.barSec);
    MinutesSplit(tape, m.startSec, c.startSec, c.endSec, m.barSec);
    MinutesAscend(tape, m.startSec, Boundary(m, n + 1), m.barSec);
  }

  lemma MinutesAscend(tape: seq<Candle>, startSec: int, endSec: int, barSec: BarSec)
    ensures var whole := MinutesFor(startSec, endSec, tape, barSec);
            whole.Rows? ==>
              && DistinctMinutes(whole.rows) && Ascends(whole.rows)
              && ((endSec - startSec) % barSec == 0 && startSec <= endSec
                  ==> |whole.rows| * barSec == endSec - startSec)
  {
    var found := Collect(tape, startSec, endSec, barSec);
    if found.Found? {
      RowsAscend(found.byMinute, startSec, endSec, barSec);
      if (endSec - startSec) % barSec == 0 && startSec <= endSec {
        RowsCount(found.byMinute, startSec, endSec, barSec);
      }
    }
  }

  // ----- a session

  ghost predicate AllServed(replies: seq<Reply>) {
    forall k :: 0 <= k < |replies| ==> replies[k].Served?
  }

  /**
   * One session over the month: stored chunks are skipped, the rest are asked for in order, and a
   * halt, a 404 or a failure ends it. The store keeps to the tape, and a finished month is exactly
   * what one call over the whole window gives.
   */
  method Session(store: PartialStore, m: Month, replies: seq<Reply>, ghost tape: seq<Candle>, ghost stored: nat)
    returns (end: SessionEnd, ghost now: nat)
    requires (m.endSec - m.startSec) % m.barSec == 0 && m.startSec <= m.endSec && |replies| == |ChunksOf(m)|
    requires forall k :: 0 <= k < |replies| ==> Honest(replies[k], ChunksOf(m)[k], tape)
    requires Stores(store.minutes, store.chunks, m, tape, stored)
    modifies store
    ensures Stores(store.minutes, store.chunks, m, tape, now)
    ensures end.Finalized? ==> MinutesFor(m.startSec, m.endSec, tape, m.barSec) == Rows(end.rows)
    ensures if end.Unavailable? then now == 0 else stored <= now
    ensures AllServed(replies) && MinutesFor(m.startSec, m.endSec, tape, m.barSec).Rows? ==> end.Finalized?
    ensures end.Unavailable? ==> exists k :: 0 <= k < |replies| && replies[k].NotFound?
  {
    hide MinutesFor, ChunksFrom, Inside, Honest;
    now := stored;
    var chunks := ChunksForWindow(m.startSec, m.endSec, m.barSec);
    for k := 0 to |chunks|
      invariant stored <= now <= |chunks| && now == if k < stored then stored else k
      invariant Stores(store.minutes, store.chunks, m, tape, now)
    {
      BoundaryAligned(m, k);
      if chunks[k].index in store.chunks {
        continue;
      }
      match replies[k]
      case HaltFirst => return Halted, now;
      case NotFound =>
        store.Discard();
        NothingStored(m, tape);
        return Unavailable, 0;
      case Failed => return Threw, now;
      case Served(candles) =>
        var ok := StoreChunk(store, m, chunks[k], candles, tape);
        if !ok {
          return Threw, now;
        }
        now := k + 1;
    }
    end := FinishMonth(store, m, tape);
  }

  /** One fetched chunk: its rows go in, unless the whole month could not be had either. */
  method StoreChunk(store: PartialStore, m: Month, chunk: ChunkWindow, candles: seq<Candle>, ghost tape: seq<Candle>)
      returns (ok: bool)
    requires (m.endSec - m.startSec) % m.barSec == 0 && m.startSec <= m.endSec
    requires chunk.index < |ChunksOf(m)| && chunk == ChunksOf(m)[chunk.index] && Honest(Served(candles), chunk, tape)
    requires Stores(store.minutes, store.chunks, m, tape, chunk.index)
    modifies store
    ensures ok ==> Stores(store.minutes, store.chunks, m, tape, chunk.index + 1)
    ensures !ok ==> Stores(store.minutes, store.chunks, m, tape, chunk.index)
    ensures !ok ==> MinutesFor(m.startSec, m.endSec, tape, m.barSec).Refused?
  {
    hide MinutesFor, ChunksFrom, Inside, Honest;
    var got := MinutesForChunk(chunk.startSec, chunk.endSec, candles, m.barSec);
    NextChunkFits(store.minutes, store.chunks, m, tape, chunk.index, candles);
    if got.Refused? {
      RefusedStays(m, tape, chunk.index + 1);
      return false;
    }
    ok := store.WriteChunk(chunk.index, got.rows);
  }

  method FinishMonth(store: PartialStore, m: Month, ghost tape: seq<Candle>) returns (end: SessionEnd)
    requires (m.endSec - m.startSec) % m.barSec == 0 && m.startSec <= m.endSec
    requires Stores(store.minutes, store.chunks, m, tape, |ChunksOf(m)|)
    ensures end.Finalized? && MinutesFor(m.startSec, m.endSec, tape, m.barSec) == Rows(end.rows)
  {
    hide MinutesFor, ChunksFrom, Inside, Ascends;
    BoundaryAligned(m, |ChunksOf(m)|);
    var rows := store.ReadMinutes();
    MinutesAscend(tape, m.startSec, m.endSec, m.barSec);
    OrderedIsAscending(rows, store.minutes);
    if |rows| * m.barSec != m.endSec - m.startSec {
      return Threw;
    }
    end := Finalized(rows);
  }

  lemma NothingStored(m: Month, tape: seq<Candle>)
    ensures Stores([], {}, m, tape, 0)
  {
    CollectByWindow(tape, m.startSec, m.startSec, m.barSec);
    InsideEmpty(tape, m.startSec);
  }

  lemma {:induction false} InsideEmpty(candles: seq<Candle>, sec: int)
    ensures Inside(candles, sec, sec) == multiset{}
  {
    if candles != [] {
      InsideEmpty(candles[..|candles| - 1], sec);
    }
  }

  /** A refused part refuses the whole. */
  lemma RefusedStays(m: Month, tape: seq<Candle>, n: nat)
    requires n <= |ChunksOf(m)| && (m.endSec - m.startSec) % m.barSec == 0 && m.startSec <= m.endSec
    requires MinutesFor(m.startSec, Boundary(m, n), tape, m.barSec).Refused?
    ensures MinutesFor(m.startSec, m.endSec, tape, m.barSec).Refused?
  {
    BoundaryAligned(m, n);
    BoundaryBefore(m, n);
    MinutesSplit(tape, m.startSec, Boundary(m, n), m.endSec, m.barSec);
  }

  lemma {:induction false} BoundaryBefore(m: Month, n: nat)
    requires n <= |ChunksOf(m)| && (m.endSec - m.startSec) % m.barSec == 0 && m.startSec <= m.endSec
    ensures Boundary(m, n) <= m.endSec
    decreases |ChunksOf(m)| - n
  {
    BoundaryAligned(m, n);
    if n < |ChunksOf(m)| {
      BoundaryBefore(m, n + 1);
    }
  }

  /**
   * Any sequence of sessions on one store: the first that finishes has the whole month, row for row,
   * and one does unless an earlier 404 has closed the pair.
   */
  method Resume(m: Month, sessions: seq<seq<Reply>>, ghost tape: seq<Candle>) returns (rows: Option<seq<MinuteRow>>)
    requires (m.endSec - m.startSec) % m.barSec == 0 && m.startSec <= m.endSec
    requires forall i :: 0 <= i < |sessions| ==> |sessions[i]| == |ChunksOf(m)|
    requires forall i, k ::
            0 <= i < |sessions| && 0 <= k < |sessions[i]| ==> Honest(sessions[i][k], ChunksOf(m)[k], tape)
    ensures rows.Some? ==> MinutesFor(m.startSec, m.endSec, tape, m.barSec) == Rows(rows.value)
    ensures MinutesFor(m.startSec, m.endSec, tape, m.barSec).Rows?
            && (exists replies :: replies in sessions && AllServed(replies))
      ==> rows.Some? || exists i, k :: 0 <= i < |sessions| && 0 <= k < |sessions[i]| && sessions[i][k].NotFound?
  {
    var store := new PartialStore();
    ghost var stored: nat := 0;
    NothingStored(m, tape);
    for i := 0 to |sessions|
      invariant fresh(store) && Stores(store.minutes, store.chunks, m, tape, stored)
      invariant MinutesFor(m.startSec, m.endSec, tape, m.barSec).Rows?
         ==> forall j :: 0 <= j < i ==> !AllServed(sessions[j])
    {
      var end, now := Session(store, m, sessions[i], tape, stored);
      stored := now;
      if end.Finalized? {
        return Some(end.rows);
      }
      if end.Unavailable? {
        return None;
      }
    }
    rows := None;
  }
}
