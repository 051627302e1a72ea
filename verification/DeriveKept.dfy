/** Dropping the empty derived bars leaves exactly what folding the traded 15m bars gives. */
module DeriveKept {
  import opened Basics
  import opened CandleChunks
  import opened DeriveBars
  import opened DeriveFolds
  import F = FoldHours

  /** The derived bars that traded, as numbers. */
  ghost function Kept(bars: seq<Bar>): seq<F.FoldBar> {
    if bars == [] then []
    else
      var bar := bars[|bars| - 1];
      Kept(bars[..|bars| - 1]) + if bar.prices == Empty then [] else [AsNumbers(bar)]
  }

  ghost function AsNumbers(bar: Bar): F.FoldBar
    requires bar.prices.Prices?
  {
    var p := bar.prices;
    F.FoldBar(bar.openTs, Worth(p.open), Worth(p.high), Worth(p.low), Worth(p.close), Worth(p.volume))
  }

  /** The 15m rows of the window that traded, as numbers. */
  ghost function TradedRows(minutes: seq<MinuteRow>, start: int, end: int): seq<F.FoldBar> {
    if minutes == [] then []
    else
      var row := minutes[|minutes| - 1];
      TradedRows(minutes[..|minutes| - 1], start, end) + if row.TradedMinute? && start <= row.minuteSec < end
        then [Num(row)] else []
  }

  /** No minute of the window appears twice. */
  ghost predicate DistinctInside(minutes: seq<MinuteRow>, start: int, end: int) {
    forall i, j :: 0 <= i < j < |minutes| && start <= minutes[i].minuteSec < end
        ==> minutes[i].minuteSec != minutes[j].minuteSec
  }

  // ----- both sides look up the same bars

  lemma {:induction false} ByMinuteHolds(minutes: seq<MinuteRow>, sec: int)
    ensures sec in ByMinute(minutes) ==> exists i :: 0 <= i < |minutes| && minutes[i].minuteSec == sec
  {
    if minutes != [] {
      var n := |minutes| - 1;
      ByMinuteHolds(minutes[..n], sec);
      if sec in ByMinute(minutes) && sec != minutes[n].minuteSec {
        var i :| 0 <= i < n && minutes[..n][i].minuteSec == sec;
        assert minutes[i].minuteSec == sec;
      }
    }
  }

  lemma {:induction false} ByTsSnoc(bars: seq<F.FoldBar>, bar: F.FoldBar)
    ensures F.ByTs(bars + [bar]) == F.ByTs(bars)[bar.ts := bar]
  {
    assert (bars + [bar])[..|bars|] == bars;
  }

  lemma {:induction false} LooksUpAlike(minutes: seq<MinuteRow>, start: int, end: int, sec: int)
    requires DistinctInside(minutes, start, end) && start <= sec < end
    ensures F.At(F.ByTs(TradedRows(minutes, start, end)), sec) == F.At(Nums(ByMinute(minutes)), sec)
  {
    hide Worth, F.ByTs;
    if minutes == [] {
      NothingToLookUp();
    } else {
      var n := |minutes| - 1;
      var row := minutes[n];
      LooksUpAlike(minutes[..n], start, end, sec);
      ByMinuteHolds(minutes[..n], sec);
      ByTsSnoc(TradedRows(minutes[..n], start, end),
          if row.TradedMinute? then Num(row) else F.FoldBar(0, 0.0, 0.0, 0.0, 0.0, 0.0));
      assert TradedRows(minutes[..n], start, end) + [] == TradedRows(minutes[..n], start, end);
    }
  }

  lemma NothingToLookUp()
    ensures F.ByTs([]) == map[]
  {
  }

  lemma {:induction false} BucketAgrees(left: map<int, F.FoldBar>, right: map<int, F.FoldBar>, at: int, end: int)
    requires forall sec :: at <= sec < end ==> F.At(left, sec) == F.At(right, sec)
    ensures F.Bucket(left, at, end, BAR_SEC) == F.Bucket(right, at, end, BAR_SEC)
    decreases end - at
  {
    if at < end {
      BucketAgrees(left, right, at + BAR_SEC, end);
    }
  }

  lemma {:induction false} RowsInside(minutes: seq<MinuteRow>, start: int, end: int, sec: int)
    requires sec in F.ByTs(TradedRows(minutes, start, end))
    ensures start <= sec < end
  {
    hide F.ByTs, Worth;
    if minutes == [] {
      NothingToLookUp();
    } else {
      var n := |minutes| - 1;
      var row := minutes[n];
      if row.TradedMinute? && start <= row.minuteSec < end {
        ByTsSnoc(TradedRows(minutes[..n], start, end), Num(row));
      }
      assert TradedRows(minutes[..n], start, end) + [] == TradedRows(minutes[..n], start, end);
      if sec != row.minuteSec || !(row.TradedMinute? && start <= row.minuteSec < end) {
        RowsInside(minutes[..n], start, end, sec);
      }
    }
  }

  // ----- the kept bars are the fold

  ghost predicate Answers(bar: Bar, byTs: map<int, F.FoldBar>, step: F.Span) {
    Shows(bar.prices, F.Bucket(byTs, bar.openTs, bar.openTs + step, BAR_SEC))
  }

  lemma {:induction false} AnsweredNumbers(bar: Bar, byTs: map<int, F.FoldBar>, step: F.Span)
    requires Answers(bar, byTs, step)
    ensures bar.prices == Empty <==> F.Bucket(byTs, bar.openTs, bar.openTs + step, BAR_SEC) == F.Nothing
    ensures bar.prices != Empty ==> F.TradedOf(AsNumbers(bar)) == F.Bucket(byTs, bar.openTs, bar.openTs + step, BAR_SEC)
  {
    hide F.Bucket;
  }

  ghost predicate KeptRight(kept: F.FoldBar, bars: seq<Bar>, byTs: map<int, F.FoldBar>, step: F.Span) {
    Opens(bars, kept.ts) && F.Bucket(byTs, kept.ts, kept.ts + step, BAR_SEC) == F.TradedOf(kept)
  }

  ghost predicate KeptIfTraded(bar: Bar, bars: seq<Bar>, byTs: map<int, F.FoldBar>, step: F.Span) {
    F.Bucket(byTs, bar.openTs, bar.openTs + step, BAR_SEC) != F.Nothing ==> F.Listed(Kept(bars), bar.openTs)
  }

  lemma {:induction false} KeptMembers(bars: seq<Bar>, byTs: map<int, F.FoldBar>, step: F.Span)
    requires forall i, j :: 0 <= i < j < |bars| ==> bars[i].openTs < bars[j].openTs
    requires forall bar :: bar in bars ==> Answers(bar, byTs, step)
    ensures F.Ascending(Kept(bars))
    ensures forall kept :: kept in Kept(bars) ==> KeptRight(kept, bars, byTs, step)
    ensures forall bar :: bar in bars ==> KeptIfTraded(bar, bars, byTs, step)
  {
    hide KeptRight, KeptIfTraded, Answers, Worth;
    if bars != [] {
      var n := |bars| - 1;
      var before, bar := bars[..n], bars[n];
      assert before + [bar] == bars && bar in bars;
      KeptMembers(before, byTs, step);
      KeptStep(before, bar, byTs, step);
      forall kept | kept in Kept(before) ensures Opens(before, kept.ts) {
        assert KeptRight(kept, before, byTs, step);
        RightOpens(kept, before, byTs, step);
      }
      KeptAscend(before, bar);
    }
  }

  lemma RightOpens(kept: F.FoldBar, bars: seq<Bar>, byTs: map<int, F.FoldBar>, step: F.Span)
    requires KeptRight(kept, bars, byTs, step)
    ensures Opens(bars, kept.ts)
  {
  }

  lemma {:induction false} KeptStep(before: seq<Bar>, bar: Bar, byTs: map<int, F.FoldBar>, step: F.Span)
    requires Answers(bar, byTs, step)
    requires forall kept :: kept in Kept(before) ==> KeptRight(kept, before, byTs, step)
    requires forall x :: x in before ==> KeptIfTraded(x, before, byTs, step)
    ensures forall kept :: kept in Kept(before + [bar]) ==> KeptRight(kept, before + [bar], byTs, step)
    ensures forall x :: x in before + [bar] ==> KeptIfTraded(x, before + [bar], byTs, step)
  {
    hide F.Bucket, Answers, Worth, F.Listed, Opens;
    var bars := before + [bar];
    assert bars[..|before|] == before;
    AnsweredNumbers(bar, byTs, step);
    KeptMore(before, bar);
    forall kept | kept in Kept(bars) ensures KeptRight(kept, bars, byTs, step) {
      assert kept in Kept(before) ==> KeptRight(kept, before, byTs, step);
    }
    forall x | x in bars ensures KeptIfTraded(x, bars, byTs, step) {
      assert x in before ==> KeptIfTraded(x, before, byTs, step);
    }
  }

  lemma {:induction false} KeptAscend(before: seq<Bar>, bar: Bar)
    requires F.Ascending(Kept(before)) && forall i :: 0 <= i < |before| ==> before[i].openTs < bar.openTs
    requires forall kept :: kept in Kept(before) ==> Opens(before, kept.ts)
    ensures F.Ascending(Kept(before + [bar]))
  {
    hide Worth;
    assert (before + [bar])[..|before|] == before;
    forall i | 0 <= i < |Kept(before)| ensures Kept(before)[i].ts < bar.openTs {
      assert Kept(before)[i] in Kept(before);
    }
  }

  ghost predicate Opens(bars: seq<Bar>, ts: int) {
    exists bar :: bar in bars && bar.openTs == ts
  }

  lemma {:induction false} KeptMore(before: seq<Bar>, bar: Bar)
    ensures forall ts :: Opens(before, ts) ==> Opens(before + [bar], ts)
    ensures Opens(before + [bar], bar.openTs)
    ensures forall ts :: F.Listed(Kept(before), ts) ==> F.Listed(Kept(before + [bar]), ts)
    ensures bar.prices != Empty ==> F.Listed(Kept(before + [bar]), bar.openTs)
  {
    hide Worth;
    var after := before + [bar];
    assert after[..|before|] == before && after[|before|] == bar;
    assert bar in after && forall x :: x in before ==> x in after;
    assert forall x :: x in Kept(before) ==> x in Kept(after);
    assert bar.prices != Empty ==> Kept(after)[|Kept(before)|] == AsNumbers(bar);
    assert bar.prices != Empty ==> AsNumbers(bar) in Kept(after);
  }

  ghost predicate Starts(bars: seq<Bar>, open: int, step: F.Span) {
    forall i :: 0 <= i < |bars| ==> bars[i].openTs == open + i * step
  }

  lemma {:induction false} LaidBarsStart(byMinute: map<int, MinuteRow>, open: int, windowEnd: int,
      timeframe: Timeframe, bars: seq<Bar>)
    requires Laid(byMinute, open, windowEnd, timeframe, bars)
    ensures Starts(bars, open, Step(timeframe))
    ensures forall bar ::
            bar in bars ==> Shows(bar.prices,
                F.Bucket(Nums(byMinute), bar.openTs, bar.openTs + Step(timeframe), BAR_SEC))
  {
    hide BarAt, Shows, F.Bucket, Nums, Step;
    forall i | 0 <= i < |bars|
      ensures bars[i].openTs == open + i * Step(timeframe)
      ensures Shows(bars[i].prices, F.Bucket(Nums(byMinute), bars[i].openTs, bars[i].openTs + Step(timeframe), BAR_SEC))
    {
      BarShows(byMinute, open + i * Step(timeframe), timeframe, bars[i]);
    }
  }

  lemma {:induction false} BarShows(byMinute: map<int, MinuteRow>, at: int, timeframe: Timeframe, bar: Bar)
    requires BarAt(byMinute, at, at + Step(timeframe), timeframe) == Got(bar)
    ensures bar.openTs == at && Shows(bar.prices, F.Bucket(Nums(byMinute), at, at + Step(timeframe), BAR_SEC))
  {
    hide BarAt, Shows, F.Bucket, Nums, Step, Worths, Gather, Readable, AllTraded;
    BarOpens(byMinute, at, at + Step(timeframe), timeframe);
    BarRows(byMinute, at, at + Step(timeframe), bar);
    GatherIsBucket(byMinute, at, at + Step(timeframe));
  }

  lemma {:induction false} StartsAscend(bars: seq<Bar>, open: int, step: F.Span)
    requires Starts(bars, open, step)
    ensures forall i, j :: 0 <= i < j < |bars| ==> bars[i].openTs < bars[j].openTs
  {
    forall i, j | 0 <= i < j < |bars| ensures bars[i].openTs < bars[j].openTs {
      assert i * step < j * step;
    }
  }

  /** A start of the grid inside the window is the opening of one of the bars. */
  lemma {:induction false} GridIsCovered(bars: seq<Bar>, open: int, step: F.Span, windowEnd: int, start: int)
    requires Starts(bars, open, step) && open % step == 0 && start % step == 0
    requires open <= start && start + step <= windowEnd < open + |bars| * step + step
    ensures Opens(bars, start)
  {
    var i := (start - open) / step;
    DivShift(start, step, -(open / step));
    assert open == step * (open / step);
    assert start - open == start + -(open / step) * step;
    assert start == open + i * step;
    assert i * step < |bars| * step;
    assert i < |bars|;
    assert bars[i] in bars && bars[i].openTs == start;
  }

  lemma {:induction false} AlignedInside(start: int, sec: int, low: int, high: int, step: F.Span)
    requires start <= sec < start + step && low <= sec < high
    requires start % step == 0 && low % step == 0 && high % step == 0
    ensures low <= start && start + step <= high
  {
    if start < low {
      GridApart(start, low, step);
    }
    if high < start + step {
      DivShift(start, step, 1);
      GridApart(high, start + step, step);
    }
  }

  lemma GridApart(a: int, b: int, step: F.Span)
    requires a % step == 0 && b % step == 0 && a < b
    ensures a + step <= b
  {
    var p, q := a / step, b / step;
    assert a == step * p && b == step * q;
    if q <= p {
      IntMonotone(step, q, p);
    } else {
      IntMonotone(step, p + 1, q);
      assert step * (p + 1) == step * p + step;
    }
  }

  /** On an aligned window, the bars that are not empty are the fold of the traded minutes. */
  lemma {:induction false} KeptBarsAreTheFold(minutes: seq<MinuteRow>, timeframe: Timeframe, windowStart: int,
      windowEnd: int)
    requires windowStart % Step(timeframe) == 0 && windowEnd % Step(timeframe) == 0
    requires DistinctInside(minutes, windowStart, windowEnd)
    requires Derive(minutes, timeframe, windowStart, windowEnd).Got?
    ensures Kept(Derive(minutes, timeframe, windowStart, windowEnd).value)
         == F.Fold(TradedRows(minutes, windowStart, windowEnd), Step(timeframe), BAR_SEC)
  {
    hide DistinctInside, BarsFrom, ByMinute, Kept, TradedRows, F.Fold, F.ByTs, F.Bucket, Starts, Laid;
    var step, byMinute := Step(timeframe), ByMinute(minutes);
    var rows := TradedRows(minutes, windowStart, windowEnd);
    var bars := Derive(minutes, timeframe, windowStart, windowEnd).value;
    AlignedCeil(windowStart, step);
    BarsAreLaid(byMinute, windowStart, windowEnd, timeframe);
    LaidBarsStart(byMinute, windowStart, windowEnd, timeframe, bars);
    LaidEnds(byMinute, windowStart, windowEnd, timeframe, bars);
    StartsAscend(bars, windowStart, step);
    BarsAnswer(minutes, windowStart, windowEnd, bars, step);
    KeptMembers(bars, F.ByTs(rows), step);
    KeptIsFold(minutes, windowStart, windowEnd, bars, step);
    F.FoldIsFold(rows, step, BAR_SEC);
    F.FoldIsUnique(Kept(bars), F.Fold(rows, step, BAR_SEC), F.ByTs(rows), step, BAR_SEC);
  }

  lemma AlignedCeil(sec: int, step: F.Span)
    requires sec % step == 0
    ensures CeilTo(sec, step) == sec
  {
    assert sec == step * (sec / step);
    DivUnique(-sec, step, -(sec / step), 0);
  }

  lemma LaidEnds(byMinute: map<int, MinuteRow>, open: int, windowEnd: int, timeframe: Timeframe, bars: seq<Bar>)
    requires Laid(byMinute, open, windowEnd, timeframe, bars)
    ensures bars == [] || open + |bars| * Step(timeframe) <= windowEnd
    ensures windowEnd < open + |bars| * Step(timeframe) + Step(timeframe)
  {
    hide BarAt, Step;
  }

  lemma {:induction false} BarsAnswer(minutes: seq<MinuteRow>, windowStart: int, windowEnd: int, bars: seq<Bar>,
      step: F.Span)
    requires DistinctInside(minutes, windowStart, windowEnd) && Starts(bars, windowStart, step)
    requires bars == [] || windowStart + |bars| * step <= windowEnd
    requires forall bar ::
            bar in bars ==> Shows(bar.prices, F.Bucket(Nums(ByMinute(minutes)), bar.openTs, bar.openTs + step, BAR_SEC))
    ensures forall bar :: bar in bars ==> Answers(bar, F.ByTs(TradedRows(minutes, windowStart, windowEnd)), step)
  {
    hide DistinctInside, ByMinute, TradedRows, F.ByTs, F.Bucket, Shows, Nums, F.At;
    var left, right := F.ByTs(TradedRows(minutes, windowStart, windowEnd)), Nums(ByMinute(minutes));
    forall i | 0 <= i < |bars| ensures Answers(bars[i], left, step) {
      BarInside(windowStart, i, step, |bars|, windowEnd);
      var at := bars[i].openTs;
      forall sec | at <= sec < at + step ensures F.At(left, sec) == F.At(right, sec) {
        LooksUpAlike(minutes, windowStart, windowEnd, sec);
      }
      BucketAgrees(left, right, at, at + step);
      assert bars[i] in bars;
    }
  }

  lemma {:induction false} KeptIsFold(minutes: seq<MinuteRow>, windowStart: int, windowEnd: int, bars: seq<Bar>,
      step: F.Span)
    requires Starts(bars, windowStart, step) && windowStart % step == 0 && windowEnd % step == 0
    requires windowEnd < windowStart + |bars| * step + step
    requires F.Ascending(Kept(bars))
    requires var byTs := F.ByTs(TradedRows(minutes, windowStart, windowEnd));
             && (forall kept :: kept in Kept(bars) ==> KeptRight(kept, bars, byTs, step))
             && (forall bar :: bar in bars ==> KeptIfTraded(bar, bars, byTs, step))
    ensures F.IsFold(Kept(bars), F.ByTs(TradedRows(minutes, windowStart, windowEnd)), step, BAR_SEC)
  {
    hide Kept, TradedRows, F.ByTs, F.Bucket, Starts;
    var byTs := F.ByTs(TradedRows(minutes, windowStart, windowEnd));
    forall kept | kept in Kept(bars) ensures kept.ts % step == 0 {
      assert KeptRight(kept, bars, byTs, step);
      OpensOnGrid(bars, windowStart, step, kept.ts);
    }
    forall start | start % step == 0 && F.Bucket(byTs, start, start + step, BAR_SEC) != F.Nothing
      ensures exists kept :: kept in Kept(bars) && kept.ts == start
    {
      F.BucketHolds(byTs, start, start + step, BAR_SEC);
      var sec :| start <= sec < start + step && sec in byTs;
      RowsInside(minutes, windowStart, windowEnd, sec);
      AlignedInside(start, sec, windowStart, windowEnd, step);
      GridIsCovered(bars, windowStart, step, windowEnd, start);
      var bar :| bar in bars && bar.openTs == start;
      assert KeptIfTraded(bar, bars, byTs, step);
      assert F.Listed(Kept(bars), start);
    }
  }

  lemma {:induction false} OpensOnGrid(bars: seq<Bar>, open: int, step: F.Span, ts: int)
    requires Starts(bars, open, step) && open % step == 0 && Opens(bars, ts)
    ensures ts % step == 0
  {
    var bar :| bar in bars && bar.openTs == ts;
    var i :| 0 <= i < |bars| && bars[i] == bar;
    DivShift(open, step, i);
  }

  /** Folding the kept hours gives the kept four-hour or day bars. */
  lemma {:induction false} KeptHoursFoldToKeptBars(minutes: seq<MinuteRow>, timeframe: Timeframe, windowStart: int,
      windowEnd: int)
    requires windowStart % Step(timeframe) == 0 && windowEnd % Step(timeframe) == 0
    requires DistinctInside(minutes, windowStart, windowEnd)
    requires Derive(minutes, Hour, windowStart, windowEnd).Got?
    ensures Derive(minutes, timeframe, windowStart, windowEnd).Got?
    ensures Kept(Derive(minutes, timeframe, windowStart, windowEnd).value)
         == F.Fold(Kept(Derive(minutes, Hour, windowStart, windowEnd).value), Step(timeframe), Step(Hour))
  {
    hide DistinctInside, Derive, Kept, F.Fold, TradedRows, JoinsItsHours;
    WideBarsJoinHours(minutes, timeframe, windowStart, windowEnd);
    WholeHours(windowStart, Step(timeframe));
    WholeHours(windowEnd, Step(timeframe));
    KeptBarsAreTheFold(minutes, timeframe, windowStart, windowEnd);
    KeptBarsAreTheFold(minutes, Hour, windowStart, windowEnd);
    F.FoldOfFold(TradedRows(minutes, windowStart, windowEnd), Step(timeframe), Step(Hour), BAR_SEC);
  }
}
