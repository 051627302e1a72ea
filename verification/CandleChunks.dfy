/** Minute rows for a window of candles, and the chunked, resumable way of collecting them. */
module CandleChunks {
  import opened Basics

  const CHUNK_BARS := 299

  datatype Candle = Candle(minuteSec: int, low: string, high: string, open: string, close: string, volume: string)

  datatype MinuteRow =
    | EmptyMinute(minuteSec: int)
    | TradedMinute(minuteSec: int, open: string, high: string, low: string, close: string, volume: string)

  datatype Refusal = OffGrid(sec: int) | Duplicate(sec: int)

  datatype Minutes = Rows(rows: seq<MinuteRow>) | Refused(refusal: Refusal)

  /** The width of one bar. */
  type BarSec = n: int | 0 < n witness 900

  // ----- one call

  datatype Collected = Found(byMinute: map<int, Candle>) | Bad(refusal: Refusal)

  predicate Within(c: Candle, startSec: int, endSec: int) {
    startSec <= c.minuteSec < endSec
  }

  function CollectOne(c: Candle, found: map<int, Candle>, startSec: int, endSec: int, barSec: BarSec): Collected {
    if !Within(c, startSec, endSec) then Found(found)
    else if c.minuteSec % barSec != 0 then Bad(OffGrid(c.minuteSec))
    else if c.minuteSec in found then Bad(Duplicate(c.minuteSec))
    else Found(found[c.minuteSec := c])
  }

  function Collect(candles: seq<Candle>, startSec: int, endSec: int, barSec: BarSec): Collected {
    if candles == [] then Found(map[])
    else
      var n := |candles| - 1;
      var before := Collect(candles[..n], startSec, endSec, barSec);
      if before.Bad? then before else CollectOne(candles[n], before.byMinute, startSec, endSec, barSec)
  }

  function RowAt(byMinute: map<int, Candle>, sec: int): MinuteRow {
    if sec !in byMinute then EmptyMinute(sec)
    else
      var c := byMinute[sec];
      TradedMinute(sec, c.open, c.high, c.low, c.close, c.volume)
  }

  function RowsFrom(byMinute: map<int, Candle>, sec: int, endSec: int, barSec: BarSec): seq<MinuteRow>
    decreases endSec - sec
  {
    if sec >= endSec then [] else [RowAt(byMinute, sec)] + RowsFrom(byMinute, sec + barSec, endSec, barSec)
  }

  function MinutesFor(startSec: int, endSec: int, candles: seq<Candle>, barSec: BarSec): Minutes {
    match Collect(candles, startSec, endSec, barSec)
    case Bad(r) => Refused(r)
    case Found(m) => Rows(RowsFrom(m, startSec, endSec, barSec))
  }

  method MinutesForChunk(startSec: int, endSec: int, candles: seq<Candle>, barSec: BarSec) returns (result: Minutes)
    ensures result == MinutesFor(startSec, endSec, candles, barSec)
  {
    hide Collect, RowsFrom;
    var found := CollectCandles(startSec, endSec, candles, barSec);
    if found.Bad? {
      return Refused(found.refusal);
    }
    var byMinute := found.byMinute;
    var rows: seq<MinuteRow> := [];
    var sec := startSec;
    while sec < endSec
      invariant rows + RowsFrom(byMinute, sec, endSec, barSec) == RowsFrom(byMinute, startSec, endSec, barSec)
      decreases endSec - sec
    {
      RowsUnfold(byMinute, sec, endSec, barSec);
      if sec !in byMinute {
        rows := rows + [EmptyMinute(sec)];
      } else {
        var c := byMinute[sec];
        rows := rows + [TradedMinute(sec, c.open, c.high, c.low, c.close, c.volume)];
      }
      sec := sec + barSec;
    }
    RowsUnfold(byMinute, sec, endSec, barSec);
    result := Rows(rows);
  }

  lemma RowsUnfold(byMinute: map<int, Candle>, sec: int, endSec: int, barSec: BarSec)
    ensures sec >= endSec ==> RowsFrom(byMinute, sec, endSec, barSec) == []
    ensures sec < endSec ==>
      RowsFrom(byMinute, sec, endSec, barSec)
          == [RowAt(byMinute, sec)] + RowsFrom(byMinute, sec + barSec, endSec, barSec)
    ensures RowAt(byMinute, sec).minuteSec == sec
  {
  }

  method CollectCandles(startSec: int, endSec: int, candles: seq<Candle>, barSec: BarSec) returns (found: Collected)
    ensures found == Collect(candles, startSec, endSec, barSec)
  {
    var byMinute: map<int, Candle> := map[];
    for k := 0 to |candles|
      invariant Collect(candles[..k], startSec, endSec, barSec) == Found(byMinute)
    {
      var c := candles[k];
      assert candles[..k + 1][..k] == candles[..k];
      if !Within(c, startSec, endSec) {
        continue;
      }
      if c.minuteSec % barSec != 0 {
        BadStays(candles, k + 1, startSec, endSec, barSec);
        return Bad(OffGrid(c.minuteSec));
      }
      if c.minuteSec in byMinute {
        BadStays(candles, k + 1, startSec, endSec, barSec);
        return Bad(Duplicate(c.minuteSec));
      }
      byMinute := byMinute[c.minuteSec := c];
    }
    assert candles[..|candles|] == candles;
    found := Found(byMinute);
  }

  lemma {:induction false} BadStays(candles: seq<Candle>, k: nat, startSec: int, endSec: int, barSec: BarSec)
    requires k <= |candles| && Collect(candles[..k], startSec, endSec, barSec).Bad?
    ensures Collect(candles, startSec, endSec, barSec) == Collect(candles[..k], startSec, endSec, barSec)
  {
    if k == |candles| {
      assert candles[..k] == candles;
    } else {
      var n := |candles| - 1;
      assert candles[..n][..k] == candles[..k];
      BadStays(candles[..n], k, startSec, endSec, barSec);
    }
  }

  // ----- a call depends only on the candles inside its window

  ghost function Inside(candles: seq<Candle>, startSec: int, endSec: int): multiset<Candle> {
    if candles == [] then multiset{}
    else
      var n := |candles| - 1;
      Inside(candles[..n], startSec, endSec) + if Within(candles[n], startSec, endSec) then multiset{candles[n]}
        else multiset{}
  }

  /** On the grid, and one candle a minute. */
  ghost predicate Clean(inside: multiset<Candle>, barSec: BarSec) {
    && (forall c :: c in inside ==> c.minuteSec % barSec == 0 && inside[c] == 1)
    && (forall c, d :: c in inside && d in inside && c.minuteSec == d.minuteSec ==> c == d)
  }

  ghost predicate Indexes(m: map<int, Candle>, inside: multiset<Candle>) {
    && (forall c :: c in inside ==> c.minuteSec in m && m[c.minuteSec] == c)
    && (forall sec :: sec in m ==> m[sec] in inside && m[sec].minuteSec == sec)
  }

  lemma {:induction false} CollectByWindow(candles: seq<Candle>, startSec: int, endSec: int, barSec: BarSec)
    ensures var inside, found := Inside(candles, startSec, endSec), Collect(candles, startSec, endSec, barSec);
            && (found.Found? <==> Clean(inside, barSec))
            && (found.Found? ==> Indexes(found.byMinute, inside))
  {
    if candles != [] {
      var n := |candles| - 1;
      var c := candles[n];
      CollectByWindow(candles[..n], startSec, endSec, barSec);
      CollectNext(Inside(candles[..n], startSec, endSec), Collect(candles[..n], startSec, endSec, barSec), c,
          startSec, endSec, barSec);
    }
  }

  lemma CollectNext(inside: multiset<Candle>, found: Collected, c: Candle, startSec: int, endSec: int, barSec: BarSec)
    requires found.Found? <==> Clean(inside, barSec)
    requires found.Found? ==> Indexes(found.byMinute, inside)
    ensures var more := inside + if Within(c, startSec, endSec) then multiset{c} else multiset{};
            var next := if found.Bad? then found else CollectOne(c, found.byMinute, startSec, endSec, barSec);
            && (next.Found? <==> Clean(more, barSec))
            && (next.Found? ==> Indexes(next.byMinute, more))
  {
    if Within(c, startSec, endSec) {
      var more := inside + multiset{c};
      assert forall d :: d in more <==> d in inside || d == c;
      if found.Bad? {
        DirtyStays(inside, c, barSec);
      } else if c.minuteSec % barSec != 0 {
        assert c in more && !Clean(more, barSec);
      } else if c.minuteSec in found.byMinute {
        DuplicateIsDirty(inside, found.byMinute[c.minuteSec], c, barSec);
      } else {
        FreshStaysClean(inside, found.byMinute, c, barSec);
      }
    } else {
      assert inside + multiset{} == inside;
    }
  }

  lemma DirtyStays(inside: multiset<Candle>, c: Candle, barSec: BarSec)
    requires !Clean(inside, barSec)
    ensures !Clean(inside + multiset{c}, barSec)
  {
    var more := inside + multiset{c};
    if Clean(more, barSec) {
      forall d | d in inside ensures d.minuteSec % barSec == 0 && inside[d] == 1 {
        assert d in more && more[d] >= inside[d];
      }
      forall d, e | d in inside && e in inside && d.minuteSec == e.minuteSec ensures d == e {
        assert d in more && e in more;
      }
    }
  }

  lemma FreshStaysClean(inside: multiset<Candle>, m: map<int, Candle>, c: Candle, barSec: BarSec)
    requires Clean(inside, barSec) && Indexes(m, inside) && c.minuteSec !in m && c.minuteSec % barSec == 0
    ensures Clean(inside + multiset{c}, barSec) && Indexes(m[c.minuteSec := c], inside + multiset{c})
  {
    var more := inside + multiset{c};
    assert c !in inside && more[c] == 1;
    forall d | d in more ensures d.minuteSec % barSec == 0 && more[d] == 1 {
      assert d != c ==> more[d] == inside[d];
    }
  }

  lemma DuplicateIsDirty(inside: multiset<Candle>, d: Candle, c: Candle, barSec: BarSec)
    requires d in inside && d.minuteSec == c.minuteSec
    ensures !Clean(inside + multiset{c}, barSec)
  {
    var more := inside + multiset{c};
    assert c in more && d in more && (c == d ==> more[c] >= 2);
  }

  lemma IndexIsUnique(m: map<int, Candle>, other: map<int, Candle>, inside: multiset<Candle>)
    requires Indexes(m, inside) && Indexes(other, inside)
    ensures m == other
  {
    forall sec | sec in m ensures sec in other && other[sec] == m[sec] {
      assert m[sec] in inside;
    }
    forall sec | sec in other ensures sec in m {
      assert other[sec] in inside;
    }
  }

  /** The same candles in the window give the same rows, in whatever order and with whatever else they came. */
  lemma SameInsideSameRows(candles: seq<Candle>, other: seq<Candle>, startSec: int, endSec: int, barSec: BarSec)
    requires Inside(candles, startSec, endSec) == Inside(other, startSec, endSec)
    ensures MinutesFor(startSec, endSec, candles, barSec).Rows? <==> MinutesFor(startSec, endSec, other, barSec).Rows?
    ensures MinutesFor(startSec, endSec, candles, barSec).Rows? ==>
      MinutesFor(startSec, endSec, candles, barSec) == MinutesFor(startSec, endSec, other, barSec)
  {
    CollectByWindow(candles, startSec, endSec, barSec);
    CollectByWindow(other, startSec, endSec, barSec);
    var a, b := Collect(candles, startSec, endSec, barSec), Collect(other, startSec, endSec, barSec);
    if a.Found? {
      IndexIsUnique(a.byMinute, b.byMinute, Inside(candles, startSec, endSec));
    }
  }

  /** Candle k lies in the window, and off the grid or at a minute that an earlier candle in the window has. */
  ghost predicate Offends(candles: seq<Candle>, k: nat, startSec: int, endSec: int, barSec: BarSec)
    requires k < |candles|
  {
    && startSec <= candles[k].minuteSec < endSec
    && (candles[k].minuteSec % barSec != 0 || exists j :: 0 <= j < k && candles[j].minuteSec == candles[k].minuteSec)
  }

  lemma {:induction false} CollectTells(candles: seq<Candle>, startSec: int, endSec: int, barSec: BarSec)
    ensures var found := Collect(candles, startSec, endSec, barSec);
            && (found.Found? ==>
                  && (forall k :: 0 <= k < |candles| ==> !Offends(candles, k, startSec, endSec, barSec))
                  && forall sec :: sec in found.byMinute <==>
                       startSec <= sec < endSec && exists j :: 0 <= j < |candles| && candles[j].minuteSec == sec)
            && (found.Bad? ==> FirstOffence(candles, startSec, endSec, barSec, found.refusal))
  {
    if candles != [] {
      var n := |candles| - 1;
      var c := candles[n];
      CollectTells(candles[..n], startSec, endSec, barSec);
      var before := Collect(candles[..n], startSec, endSec, barSec);
      assert forall k :: 0 <= k < n ==> candles[..n][k] == candles[k];
      assert forall k :: 0 <= k < n ==>
        Offends(candles[..n], k, startSec, endSec, barSec) == Offends(candles, k, startSec, endSec, barSec);
      if before.Bad? {
        var k :| 0 <= k < n && IsOffence(candles[..n], k, startSec, endSec, barSec, before.refusal);
        assert IsOffence(candles, k, startSec, endSec, barSec, before.refusal);
      } else if !Collect(candles, startSec, endSec, barSec).Found? {
        assert IsOffence(candles, n, startSec, endSec, barSec, Collect(candles, startSec, endSec, barSec).refusal);
      }
    }
  }

  /** Candle k is the first to offend, and this is how. */
  ghost predicate IsOffence(candles: seq<Candle>, k: nat, startSec: int, endSec: int, barSec: BarSec, refusal: Refusal)
    requires k < |candles|
  {
    && Offends(candles, k, startSec, endSec, barSec)
    && (forall j :: 0 <= j < k ==> !Offends(candles, j, startSec, endSec, barSec))
    && refusal == if candles[k].minuteSec % barSec != 0 then OffGrid(candles[k].minuteSec)
      else Duplicate(candles[k].minuteSec)
  }

  ghost predicate FirstOffence(candles: seq<Candle>, startSec: int, endSec: int, barSec: BarSec, refusal: Refusal) {
    exists k :: 0 <= k < |candles| && IsOffence(candles, k, startSec, endSec, barSec, refusal)
  }

  /** A window is refused exactly when a candle offends, and for the first that does. */
  lemma {:induction false} RefusedExactly(startSec: int, endSec: int, candles: seq<Candle>, barSec: BarSec)
    ensures var minutes := MinutesFor(startSec, endSec, candles, barSec);
            && (minutes.Refused? <==> exists k :: 0 <= k < |candles| && Offends(candles, k, startSec, endSec, barSec))
            && (minutes.Refused? ==> FirstOffence(candles, startSec, endSec, barSec, minutes.refusal))
  {
    hide Collect, RowsFrom, Offends;
    CollectTells(candles, startSec, endSec, barSec);
  }

  /** No candle inside the window has this minute; or one has, and the row is that candle's. */
  ghost predicate RowTells(row: MinuteRow, sec: int, inside: multiset<Candle>) {
    && row.minuteSec == sec
    && (row.EmptyMinute? <==> forall c :: c in inside ==> c.minuteSec != sec)
    && (row.TradedMinute?
        ==> exists c :: c in inside && row == TradedMinute(sec, c.open, c.high, c.low, c.close, c.volume))
  }

  lemma {:induction false} RowsByIndex(byMinute: map<int, Candle>, sec: int, endSec: int, barSec: BarSec, k: nat)
    ensures k < |RowsFrom(byMinute, sec, endSec, barSec)| <==> sec + k * barSec < endSec
    ensures k < |RowsFrom(byMinute, sec, endSec, barSec)| ==>
              RowsFrom(byMinute, sec, endSec, barSec)[k] == RowAt(byMinute, sec + k * barSec)
    decreases endSec - sec
  {
    if sec < endSec {
      if k > 0 {
        RowsByIndex(byMinute, sec + barSec, endSec, barSec, k - 1);
        OneStepLess(sec, k, barSec);
      }
    } else {
      NotBefore(sec, k, barSec);
    }
  }

  lemma OneStepLess(sec: int, k: int, barSec: BarSec)
    ensures sec + barSec + (k - 1) * barSec == sec + k * barSec
  {
  }

  lemma NotBefore(sec: int, k: nat, barSec: BarSec)
    ensures sec <= sec + k * barSec
  {
  }

  /**
   * Row k is the bar k steps after the start, for as long as that is before the end; it is empty
   * exactly when no candle inside the window has that minute, and otherwise it is that candle's.
   */
  lemma {:induction false} RowsTell(startSec: int, endSec: int, candles: seq<Candle>, barSec: BarSec, k: nat)
    requires MinutesFor(startSec, endSec, candles, barSec).Rows?
    ensures var rows := MinutesFor(startSec, endSec, candles, barSec).rows;
            && (k < |rows| <==> startSec + k * barSec < endSec)
            && (k < |rows| ==> RowTells(rows[k], startSec + k * barSec, Inside(candles, startSec, endSec)))
  {
    hide RowsFrom, Inside, Clean;
    CollectByWindow(candles, startSec, endSec, barSec);
    RowsByIndex(Collect(candles, startSec, endSec, barSec).byMinute, startSec, endSec, barSec, k);
    RowTellsAt(Collect(candles, startSec, endSec, barSec).byMinute, Inside(candles, startSec, endSec),
        startSec + k * barSec);
  }

  lemma RowTellsAt(byMinute: map<int, Candle>, inside: multiset<Candle>, sec: int)
    requires Indexes(byMinute, inside)
    ensures RowTells(RowAt(byMinute, sec), sec, inside)
  {
    if sec in byMinute {
      assert byMinute[sec] in inside;
    }
  }

  // ----- chunks partition the window

  datatype ChunkWindow = ChunkWindow(index: nat, startSec: int, endSec: int)

  function ChunksFrom(index: nat, cursor: int, endSec: int, barSec: BarSec): seq<ChunkWindow>
    decreases endSec - cursor
  {
    var span := CHUNK_BARS * barSec;
    if cursor >= endSec then []
    else
      [ChunkWindow(index, cursor, MinInt(endSec, cursor + span))]
      + ChunksFrom(index + 1, cursor + span, endSec, barSec)
  }

  method ChunksForWindow(startSec: int, endSec: int, barSec: BarSec) returns (out: seq<ChunkWindow>)
    ensures out == ChunksFrom(0, startSec, endSec, barSec)
  {
    var span := CHUNK_BARS * barSec;
    out := [];
    var index, cursor := 0, startSec;
    while cursor < endSec
      invariant 0 <= index && out + ChunksFrom(index, cursor, endSec, barSec) == ChunksFrom(0, startSec, endSec, barSec)
      decreases endSec - cursor
    {
      out := out + [ChunkWindow(index, cursor, MinInt(endSec, cursor + span))];
      index, cursor := index + 1, cursor + span;
    }
  }

  /** Chunk k begins where the one before it ends, or at the start. */
  ghost predicate Continues(chunks: seq<ChunkWindow>, k: nat, startSec: int)
    requires k < |chunks|
  {
    chunks[k].startSec == if k == 0 then startSec else chunks[k - 1].endSec
  }

  /** Back to back from start to end, numbered in order, none longer than a request may ask for. */
  ghost predicate Partitions(chunks: seq<ChunkWindow>, index: nat, startSec: int, endSec: int, barSec: BarSec) {
    && (forall k :: 0 <= k < |chunks| ==>
          && chunks[k].index == index + k
          && chunks[k].startSec < chunks[k].endSec <= chunks[k].startSec + 299 * barSec)
    && (forall k :: 0 <= k < |chunks| ==> Continues(chunks, k, startSec))
    && (if startSec < endSec then chunks != [] && chunks[|chunks| - 1].endSec == endSec else chunks == [])
  }

  lemma {:induction false} ChunksPartition(index: nat, cursor: int, endSec: int, barSec: BarSec)
    ensures Partitions(ChunksFrom(index, cursor, endSec, barSec), index, cursor, endSec, barSec)
    ensures (endSec - cursor) % barSec == 0 ==>
      forall c :: c in ChunksFrom(index, cursor, endSec, barSec) ==> (c.endSec - c.startSec) % barSec == 0
    decreases endSec - cursor
  {
    if cursor < endSec {
      var span := CHUNK_BARS * barSec;
      ChunksPartition(index + 1, cursor + span, endSec, barSec);
      DivShift(endSec - cursor, barSec, -CHUNK_BARS);
      DivShift(0, barSec, CHUNK_BARS);
      var rest := ChunksFrom(index + 1, cursor + span, endSec, barSec);
      var chunks := ChunksFrom(index, cursor, endSec, barSec);
      assert forall k :: 0 < k < |chunks| ==> chunks[k] == rest[k - 1];
      forall k | 0 <= k < |chunks| ensures Continues(chunks, k, cursor) {
        assert k > 0 ==> Continues(rest, k - 1, cursor + span);
      }
    }
  }

  // ----- two adjacent windows make one

  lemma {:induction false} InsideSplits(candles: seq<Candle>, a: int, b: int, c: int)
    requires a <= b <= c
    ensures Inside(candles, a, c) == Inside(candles, a, b) + Inside(candles, b, c)
    ensures forall x :: x in Inside(candles, a, b) ==> x.minuteSec < b
    ensures forall x :: x in Inside(candles, b, c) ==> b <= x.minuteSec
  {
    if candles != [] {
      InsideSplits(candles[..|candles| - 1], a, b, c);
    }
  }

  lemma CleanSplits(left: multiset<Candle>, right: multiset<Candle>, b: int, barSec: BarSec)
    requires (forall x :: x in left ==> x.minuteSec < b) && (forall x :: x in right ==> b <= x.minuteSec)
    ensures Clean(left + right, barSec) <==> Clean(left, barSec) && Clean(right, barSec)
  {
    var both := left + right;
    assert forall x :: x in both <==> x in left || x in right;
    assert forall x :: x in left ==> x !in right && both[x] == left[x];
    assert forall x :: x in right ==> x !in left && both[x] == right[x];
  }

  lemma {:induction false} RowsAgree(m: map<int, Candle>, other: map<int, Candle>, sec: int, endSec: int,
      barSec: BarSec)
    requires forall x :: sec <= x < endSec ==> (x in m <==> x in other) && (x in m ==> m[x] == other[x])
    ensures RowsFrom(m, sec, endSec, barSec) == RowsFrom(other, sec, endSec, barSec)
    decreases endSec - sec
  {
    if sec < endSec {
      RowsAgree(m, other, sec + barSec, endSec, barSec);
    }
  }

  lemma {:induction false} RowsSplit(m: map<int, Candle>, a: int, b: int, c: int, barSec: BarSec)
    requires a <= b <= c && (b - a) % barSec == 0
    ensures RowsFrom(m, a, c, barSec) == RowsFrom(m, a, b, barSec) + RowsFrom(m, b, c, barSec)
    decreases b - a
  {
    if a < b {
      DivShift(b - a, barSec, -1);
      StepFits(b - a, barSec);
      RowsSplit(m, a + barSec, b, c, barSec);
    }
  }

  lemma StepFits(length: int, barSec: BarSec)
    requires length > 0 && length % barSec == 0
    ensures barSec <= length
  {
  }

  /** An index of a wider window agrees with the narrower window's own index inside it. */
  lemma IndexNarrows(wide: map<int, Candle>, inside: multiset<Candle>, narrow: map<int, Candle>,
      part: multiset<Candle>, a: int, b: int)
    requires Indexes(wide, inside) && Indexes(narrow, part)
    requires forall x :: x in part ==> x in inside
    requires forall x :: x in inside && a <= x.minuteSec < b ==> x in part
    ensures forall x :: a <= x < b ==> (x in wide <==> x in narrow) && (x in wide ==> wide[x] == narrow[x])
  {
    forall x | a <= x < b ensures (x in wide <==> x in narrow) && (x in wide ==> wide[x] == narrow[x]) {
      if x in wide {
        assert wide[x] in inside;
      }
      if x in narrow {
        assert narrow[x] in part;
      }
    }
  }

  /** One call over a window gives the rows of two calls over its halves, and is refused when either is. */
  lemma MinutesSplit(tape: seq<Candle>, a: int, b: int, c: int, barSec: BarSec)
    requires a <= b <= c && (b - a) % barSec == 0
    ensures var whole, left, right :=
            MinutesFor(a, c, tape, barSec), MinutesFor(a, b, tape, barSec), MinutesFor(b, c, tape, barSec);
            && (whole.Rows? <==> left.Rows? && right.Rows?)
            && (whole.Rows? ==> whole.rows == left.rows + right.rows)
  {
    CollectByWindow(tape, a, c, barSec);
    CollectByWindow(tape, a, b, barSec);
    CollectByWindow(tape, b, c, barSec);
    InsideSplits(tape, a, b, c);
    CleanSplits(Inside(tape, a, b), Inside(tape, b, c), b, barSec);
    if Collect(tape, a, c, barSec).Found? {
      HalvesAgree(tape, a, b, c, barSec);
    }
  }

  lemma HalvesAgree(tape: seq<Candle>, a: int, b: int, c: int, barSec: BarSec)
    requires a <= b <= c && (b - a) % barSec == 0
    requires Collect(tape, a, c, barSec).Found? && Collect(tape, a, b, barSec).Found?
            && Collect(tape, b, c, barSec).Found?
    ensures RowsFrom(Collect(tape, a, c, barSec).byMinute, a, c, barSec) ==
            RowsFrom(Collect(tape, a, b, barSec).byMinute, a, b, barSec)
                + RowsFrom(Collect(tape, b, c, barSec).byMinute, b, c, barSec)
  {
    hide Collect, RowsFrom, Inside, Clean;
    var m := Collect(tape, a, c, barSec).byMinute;
    CollectByWindow(tape, a, c, barSec);
    CollectByWindow(tape, a, b, barSec);
    CollectByWindow(tape, b, c, barSec);
    InsideSplits(tape, a, b, c);
    IndexNarrows(m, Inside(tape, a, c), Collect(tape, a, b, barSec).byMinute, Inside(tape, a, b), a, b);
    IndexNarrows(m, Inside(tape, a, c), Collect(tape, b, c, barSec).byMinute, Inside(tape, b, c), b, c);
    RowsSplit(m, a, b, c, barSec);
    RowsAgree(m, Collect(tape, a, b, barSec).byMinute, a, b, barSec);
    RowsAgree(m, Collect(tape, b, c, barSec).byMinute, b, c, barSec);
  }
}
