/** Wide bars are the fold of their hours, digit for digit, and derived bars are folded minutes. */
module DeriveFolds {
  import opened Basics
  import opened CandleChunks
  import opened Decimals
  import opened DeriveBars
  import F = FoldHours

  // ----- the rationals behind the text

  ghost function Worth(token: string): real {
    if Parse(token).None? then 0.0 else Value(Parse(token).value)
  }

  ghost function Num(row: MinuteRow): F.FoldBar
    requires row.TradedMinute?
  {
    F.FoldBar(row.minuteSec, Worth(row.open), Worth(row.high), Worth(row.low), Worth(row.close), Worth(row.volume))
  }

  /** What the rows traded, one after another. */
  ghost function Worths(rows: seq<MinuteRow>): F.Traded
    requires AllTraded(rows)
  {
    if rows == [] then F.Nothing else F.Then(Worths(rows[..|rows| - 1]), F.TradedOf(Num(rows[|rows| - 1])))
  }

  lemma {:induction false} WorthsConcat(a: seq<MinuteRow>, b: seq<MinuteRow>)
    requires AllTraded(a) && AllTraded(b)
    ensures AllTraded(a + b) && Worths(a + b) == F.Then(Worths(a), Worths(b))
  {
    hide Num, F.Then;
    AllTradedJoin(a, b);
    if b == [] {
      assert a + b == a;
      ThenNothing(Worths(a));
    } else {
      var n := |b| - 1;
      WorthsConcat(a, b[..n]);
      assert (a + b)[..|a + b| - 1] == a + b[..n];
      F.ThenAssociates(Worths(a), Worths(b[..n]), F.TradedOf(Num(b[n])));
    }
  }

  lemma AllTradedJoin(a: seq<MinuteRow>, b: seq<MinuteRow>)
    requires AllTraded(a) && AllTraded(b)
    ensures AllTraded(a + b) && forall k :: 0 <= k <= |b| ==> AllTraded(b[..k])
  {
  }

  lemma ThenNothing(x: F.Traded)
    ensures F.Then(x, F.Nothing) == x
  {
  }

  ghost function Nums(byMinute: map<int, MinuteRow>): map<int, F.FoldBar> {
    map sec | sec in byMinute && byMinute[sec].TradedMinute? :: Num(byMinute[sec])
  }

  /** The rows gathered for a bucket trade what the bucket trades. */
  lemma {:induction false} GatherIsBucket(byMinute: map<int, MinuteRow>, sec: int, end: int)
    requires Gather(byMinute, sec, end).Got?
    ensures AllTraded(Gather(byMinute, sec, end).value.filled)
    ensures Worths(Gather(byMinute, sec, end).value.filled) == F.Bucket(Nums(byMinute), sec, end, BAR_SEC)
    decreases end - sec
  {
    hide Worth;
    if sec < end {
      GatherIsBucket(byMinute, sec + BAR_SEC, end);
      var rest := Gather(byMinute, sec + BAR_SEC, end).value.filled;
      if byMinute[sec].TradedMinute? {
        WorthsConcat([byMinute[sec]], rest);
        assert [byMinute[sec]][..0] == [];
      }
    }
  }

  /** The canonical text of a rational. */
  ghost predicate Writes(s: string, x: real) {
    Parse(s).Some? && Value(Parse(s).value) == x && s == Format(Parse(s).value)
  }

  lemma {:induction false} FormatWrites(d: Decimal)
    ensures Writes(Format(d), Value(d))
  {
    hide Parse, Format, Value;
    FormatRoundTrip(d);
    FormatIsCanonical(d, Parse(Format(d)).value);
  }

  lemma {:induction false} WritesUnique(s: string, t: string, x: real)
    requires Writes(s, x) && Writes(t, x)
    ensures s == t
  {
    hide Parse, Format, Value;
    FormatIsCanonical(Parse(s).value, Parse(t).value);
  }

  ghost predicate Shows(p: Prices, t: F.Traded) {
    if p == Empty then t == F.Nothing
    else
      && t.Traded?
      && Writes(p.open, t.open) && Writes(p.high, t.high) && Writes(p.low, t.low)
      && Writes(p.close, t.close) && Writes(p.volume, t.volume)
  }

  lemma {:induction false} ShowsUnique(p: Prices, q: Prices, t: F.Traded)
    requires Shows(p, t) && Shows(q, t)
    ensures p == q
  {
    hide Writes;
    if p != Empty {
      WritesUnique(p.open, q.open, t.open);
      WritesUnique(p.high, q.high, t.high);
      WritesUnique(p.low, q.low, t.low);
      WritesUnique(p.close, q.close, t.close);
      WritesUnique(p.volume, q.volume, t.volume);
    }
  }

  // ----- one bucket shows what its rows traded

  predicate Reads(token: string) {
    Parse(token).Some?
  }

  lemma {:induction false} HigherIsMax(high: string, other: string)
    ensures Higher(high, other).Some? <==> Reads(high) && Reads(other)
    ensures Higher(high, other).Some?
       ==> Reads(Higher(high, other).value) && Worth(Higher(high, other).value) == Max(Worth(high), Worth(other))
  {
    hide Parse, CompareDecimal, Value;
    if Reads(high) && Reads(other) {
      CompareIsOrder(Parse(other).value, Parse(high).value);
    }
  }

  lemma {:induction false} LowerIsMin(low: string, other: string)
    ensures Lower(low, other).Some? <==> Reads(low) && Reads(other)
    ensures Lower(low, other).Some?
       ==> Reads(Lower(low, other).value) && Worth(Lower(low, other).value) == Min(Worth(low), Worth(other))
  {
    hide Parse, CompareDecimal, Value;
    if Reads(low) && Reads(other) {
      CompareIsOrder(Parse(other).value, Parse(low).value);
    }
  }

  ghost predicate Tallies(t: Tally, open: string, close: string, worths: F.Traded) {
    worths == F.Traded(Worth(open), Worth(t.high), Worth(t.low), Worth(close), Value(t.volume))
  }

  lemma {:induction false} AdvanceTallies(t: Tally, row: MinuteRow, open: string, close: string, worths: F.Traded)
    requires row.TradedMinute? && Tallies(t, open, close, worths) && Advance(t, row).Some?
    ensures Tallies(Advance(t, row).value, open, row.close, F.Then(worths, F.TradedOf(Num(row))))
  {
    hide Parse, Higher, Lower, AddDecimal, Value;
    HigherIsMax(t.high, row.high);
    LowerIsMin(t.low, row.low);
    AddIsExact(t.volume, Parse(row.volume).value);
  }

  lemma {:induction false} TallyShows(rows: seq<MinuteRow>)
    requires rows != [] && AllTraded(rows) && TallyOf(rows).Some?
    ensures Tallies(TallyOf(rows).value, rows[0].open, rows[|rows| - 1].close, Worths(rows))
  {
    hide Parse, Advance, Tallies;
    var n := |rows| - 1;
    if n == 0 {
      assert rows[..0] == [];
      FirstTallies(rows[0]);
    } else {
      TallyShows(rows[..n]);
      AdvanceTallies(TallyOf(rows[..n]).value, rows[n], rows[0].open, rows[n - 1].close, Worths(rows[..n]));
    }
  }

  lemma {:induction false} FirstTallies(row: MinuteRow)
    requires row.TradedMinute? && Parse(row.volume).Some?
    ensures Tallies(Tally(row.high, row.low, Parse(row.volume).value), row.open, row.close,
            F.Then(F.Nothing, F.TradedOf(Num(row))))
  {
    hide Parse, Value;
  }

  lemma {:induction false} RewriteWrites(token: string)
    requires Rewrite(token).Some?
    ensures Writes(Rewrite(token).value, Worth(token))
  {
    hide Parse, Format, Value, Writes;
    FormatWrites(Parse(token).value);
  }

  lemma {:induction false} PricesShow(filled: seq<MinuteRow>)
    requires AllTraded(filled) && PricesOf(filled).Some?
    ensures Shows(PricesOf(filled).value, Worths(filled))
  {
    hide Rewrite, Writes, Worth, Value, Format, Worths, TallyOf;
    if filled != [] {
      var t := TallyOf(filled).value;
      TallyShows(filled);
      RewriteWrites(filled[0].open);
      RewriteWrites(filled[|filled| - 1].close);
      RewriteWrites(t.high);
      RewriteWrites(t.low);
      FormatWrites(t.volume);
    } else {
      NothingTraded();
    }
  }

  lemma NothingTraded()
    ensures Worths([]) == F.Nothing
  {
  }

  // ----- when a bucket can be priced

  predicate RowReads(row: MinuteRow) {
    row.TradedMinute? && Reads(row.high) && Reads(row.low) && Reads(row.volume)
  }

  ghost predicate Readable(rows: seq<MinuteRow>) {
    AllTraded(rows)
        && (rows != []
            ==> (forall row :: row in rows ==> RowReads(row)) && Reads(rows[0].open) && Reads(rows[|rows| - 1].close))
  }

  lemma {:induction false} TallyExists(rows: seq<MinuteRow>)
    requires rows != [] && AllTraded(rows)
    ensures |rows| == 1 ==> (TallyOf(rows).Some? <==> Reads(rows[0].volume))
    ensures |rows| == 1 && TallyOf(rows).Some?
       ==> TallyOf(rows).value.high == rows[0].high && TallyOf(rows).value.low == rows[0].low
    ensures |rows| > 1 ==> (TallyOf(rows).Some? <==> forall row :: row in rows ==> RowReads(row))
    ensures |rows| > 1 && TallyOf(rows).Some? ==> Reads(TallyOf(rows).value.high) && Reads(TallyOf(rows).value.low)
  {
    hide Parse, Higher, Lower, AddDecimal;
    var n := |rows| - 1;
    if n > 0 {
      TallyExists(rows[..n]);
      assert forall row :: row in rows <==> row in rows[..n] || row == rows[n];
      assert rows[..n][0] == rows[0] && rows[0] in rows[..n] && rows[n] in rows;
      assert n == 1 ==> forall row :: row in rows[..n] ==> row == rows[0];
      if TallyOf(rows[..n]).Some? {
        HigherIsMax(TallyOf(rows[..n]).value.high, rows[n].high);
        LowerIsMin(TallyOf(rows[..n]).value.low, rows[n].low);
      }
    }
  }

  /** A bucket is priced exactly when every high, low and volume is a decimal, and the first open and last close. */
  lemma {:induction false} PricesExist(filled: seq<MinuteRow>)
    requires AllTraded(filled)
    ensures PricesOf(filled).Some? <==> Readable(filled)
  {
    hide Parse, TallyOf, Format;
    if filled != [] {
      TallyExists(filled);
      assert filled[0] in filled;
      assert |filled| == 1 ==> forall row :: row in filled ==> row == filled[0];
    }
  }

  // ----- joining bars

  function Reading(token: string): Decimal {
    if Parse(token).None? then Decimal(false, 0, 0) else Parse(token).value
  }

  /** First open, highest high, lowest low, last close, exact total volume. */
  function Join(p: Prices, q: Prices): Prices {
    if p == Empty then q
    else if q == Empty then p
    else
      Prices(
        p.open,
        if CompareDecimal(Reading(q.high), Reading(p.high)) > 0 then q.high else p.high,
        if CompareDecimal(Reading(q.low), Reading(p.low)) < 0 then q.low else p.low,
        q.close,
        Format(AddDecimal(Reading(p.volume), Reading(q.volume))))
  }

  function JoinAll(bars: seq<Bar>): Prices {
    if bars == [] then Empty else Join(JoinAll(bars[..|bars| - 1]), bars[|bars| - 1].prices)
  }

  function Nonempty(bars: seq<Bar>): nat {
    if bars == [] then 0 else Nonempty(bars[..|bars| - 1]) + bars[|bars| - 1].nonemptyMinutes
  }

  function EmptyCount(bars: seq<Bar>): nat {
    if bars == [] then 0 else EmptyCount(bars[..|bars| - 1]) + bars[|bars| - 1].emptyMinutes
  }

  lemma {:induction false} JoinShows(p: Prices, q: Prices, tp: F.Traded, tq: F.Traded)
    requires Shows(p, tp) && Shows(q, tq)
    ensures Shows(Join(p, q), F.Then(tp, tq))
  {
    hide Parse, Format, Value, CompareDecimal, AddDecimal;
    if p != Empty && q != Empty {
      CompareIsOrder(Reading(q.high), Reading(p.high));
      CompareIsOrder(Reading(q.low), Reading(p.low));
      AddIsExact(Reading(p.volume), Reading(q.volume));
      FormatWrites(AddDecimal(Reading(p.volume), Reading(q.volume)));
    }
  }

  // ----- an hour at a time

  lemma {:induction false} GatherSplit(byMinute: map<int, MinuteRow>, a: int, b: int, c: int)
    requires a <= b <= c && (b - a) % BAR_SEC == 0
    requires Gather(byMinute, a, b).Got? && Gather(byMinute, b, c).Got?
    ensures Gather(byMinute, a, c) == After(Gather(byMinute, a, b).value, Gather(byMinute, b, c))
    decreases b - a
  {
    if a == b {
      AfterNothing(Gather(byMinute, b, c));
    } else {
      F.StepFits(b - a, BAR_SEC);
      GatherSplit(byMinute, a + BAR_SEC, b, c);
      var rest := Gather(byMinute, a + BAR_SEC, b).value;
      AfterTwo(One(byMinute[a]), rest, Gather(byMinute, b, c));
    }
  }

  lemma AfterTwo(x: Gathered, y: Gathered, rest: Outcome<Gathered>)
    requires rest.Got?
    ensures After(x, After(y, rest)) == After(Gathered(x.filled + y.filled, x.empty + y.empty), rest)
  {
    assert x.filled + (y.filled + rest.value.filled) == (x.filled + y.filled) + rest.value.filled;
  }

  ghost predicate HoursFrom(byMinute: map<int, MinuteRow>, open: int, hours: seq<Bar>) {
    forall i :: 0 <= i < |hours| ==> BarAt(byMinute, open + i * 3600, open + i * 3600 + 3600, Hour) == Got(hours[i])
  }

  ghost predicate Covers(g: Gathered, hours: seq<Bar>) {
    && Readable(g.filled)
    && |g.filled| == Nonempty(hours)
    && g.empty == EmptyCount(hours)
    && Shows(JoinAll(hours), Worths(g.filled))
  }

  lemma {:induction false} CoversMore(g: Gathered, hours: seq<Bar>, hour: Bar, more: Gathered)
    requires Covers(g, hours) && Readable(more.filled)
    requires |more.filled| == hour.nonemptyMinutes && more.empty == hour.emptyMinutes
            && Shows(hour.prices, Worths(more.filled))
    ensures Covers(Gathered(g.filled + more.filled, g.empty + more.empty), hours + [hour])
  {
    hide Parse, Shows, Join;
    assert (hours + [hour])[..|hours|] == hours;
    WorthsConcat(g.filled, more.filled);
    JoinShows(JoinAll(hours), hour.prices, Worths(g.filled), Worths(more.filled));
  }

  lemma BarOpens(byMinute: map<int, MinuteRow>, open: int, end: int, timeframe: Timeframe)
    ensures var bar := BarAt(byMinute, open, end, timeframe);
            bar.Got? ==> bar.value.openTs == open && bar.value.endTs == end && bar.value.timeframe == timeframe
  {
    hide Gather, PricesOf;
  }

  lemma {:induction false} HoursCover(byMinute: map<int, MinuteRow>, open: int, hours: seq<Bar>)
    requires HoursFrom(byMinute, open, hours)
    ensures Gather(byMinute, open, open + |hours| * 3600).Got?
    ensures Covers(Gather(byMinute, open, open + |hours| * 3600).value, hours)
  {
    hide Gather, BarAt, Covers;
    if hours == [] {
      NothingCovered(byMinute, open);
    } else {
      var n := |hours| - 1;
      HoursCover(byMinute, open, hours[..n]);
      CoverStep(byMinute, open, open + n * 3600, hours[..n], hours[n]);
      assert hours[..n] + [hours[n]] == hours;
    }
  }

  lemma {:induction false} CoverStep(byMinute: map<int, MinuteRow>, open: int, mid: int, hours: seq<Bar>, hour: Bar)
    requires open <= mid && (mid - open) % BAR_SEC == 0
    requires Gather(byMinute, open, mid).Got? && Covers(Gather(byMinute, open, mid).value, hours)
    requires BarAt(byMinute, mid, mid + 3600, Hour) == Got(hour)
    ensures Gather(byMinute, open, mid + 3600).Got? && Covers(Gather(byMinute, open, mid + 3600).value, hours + [hour])
  {
    hide Gather, BarAt, Covers, Shows, Readable, Worths, JoinAll, Nonempty, EmptyCount;
    BarOpens(byMinute, mid, mid + 3600, Hour);
    BarRows(byMinute, mid, mid + 3600, hour);
    GatherSplit(byMinute, open, mid, mid + 3600);
    CoversMore(Gather(byMinute, open, mid).value, hours, hour, Gather(byMinute, mid, mid + 3600).value);
  }

  /** The rows behind one bar. */
  lemma {:induction false} BarRows(byMinute: map<int, MinuteRow>, open: int, end: int, bar: Bar)
    requires BarAt(byMinute, open, end, bar.timeframe) == Got(bar)
    ensures Gather(byMinute, open, end).Got?
    ensures Readable(Gather(byMinute, open, end).value.filled)
            && Shows(bar.prices, Worths(Gather(byMinute, open, end).value.filled))
    ensures |Gather(byMinute, open, end).value.filled| == bar.nonemptyMinutes
            && Gather(byMinute, open, end).value.empty == bar.emptyMinutes
  {
    hide Gather, PricesOf, Shows, Readable, Worths;
    GatherTraded(byMinute, open, end);
    var filled := Gather(byMinute, open, end).value.filled;
    PricesShow(filled);
    PricesExist(filled);
  }

  lemma NothingCovered(byMinute: map<int, MinuteRow>, open: int)
    ensures Gather(byMinute, open, open) == Got(Gathered([], 0)) && Covers(Gathered([], 0), [])
  {
  }

  /** One wide bar over consecutive hour bars: it exists, and it is their join, counts included. */
  lemma {:induction false} WideBar(byMinute: map<int, MinuteRow>, open: int, hours: seq<Bar>, timeframe: Timeframe)
    requires HoursFrom(byMinute, open, hours)
    ensures BarAt(byMinute, open, open + |hours| * 3600, timeframe)
         == Got(Bar(open, open + |hours| * 3600, timeframe, JoinAll(hours), Nonempty(hours), EmptyCount(hours)))
  {
    hide Gather, PricesOf, Shows, Readable, Worths, JoinAll, Nonempty, EmptyCount;
    var end := open + |hours| * 3600;
    HoursCover(byMinute, open, hours);
    var filled := Gather(byMinute, open, end).value.filled;
    GatherTraded(byMinute, open, end);
    PricesExist(filled);
    PricesShow(filled);
    ShowsUnique(PricesOf(filled).value, JoinAll(hours), Worths(filled));
  }

  // ----- the whole window

  ghost predicate Laid(byMinute: map<int, MinuteRow>, open: int, windowEnd: int, timeframe: Timeframe, bars: seq<Bar>) {
    && (forall i :: 0 <= i < |bars| ==>
          BarAt(byMinute, open + i * Step(timeframe), open + i * Step(timeframe) + Step(timeframe), timeframe)
                == Got(bars[i]))
    && (bars == [] || open + |bars| * Step(timeframe) <= windowEnd)
    && windowEnd < open + |bars| * Step(timeframe) + Step(timeframe)
  }

  lemma {:induction false} BarsAreLaid(byMinute: map<int, MinuteRow>, open: int, windowEnd: int, timeframe: Timeframe)
    requires BarsFrom(byMinute, open, windowEnd, timeframe).Got?
    ensures Laid(byMinute, open, windowEnd, timeframe, BarsFrom(byMinute, open, windowEnd, timeframe).value)
    decreases windowEnd - open
  {
    hide BarAt, Step;
    var step := Step(timeframe);
    if open + step <= windowEnd {
      BarsAreLaid(byMinute, open + step, windowEnd, timeframe);
      var bars := BarsFrom(byMinute, open, windowEnd, timeframe).value;
      var rest := BarsFrom(byMinute, open + step, windowEnd, timeframe).value;
      forall i | 0 <= i < |bars|
        ensures BarAt(byMinute, open + i * step, open + i * step + step, timeframe) == Got(bars[i]) {
        if i > 0 {
          NextStep(open, i - 1, step);
          assert BarAt(byMinute, open + step + (i - 1) * step, open + step + (i - 1) * step + step, timeframe)
              == Got(rest[i - 1]);
        }
      }
      NextStep(open, |rest|, step);
    }
  }

  function Width(timeframe: Timeframe): F.Span {
    match timeframe
    case Hour => 3_600
    case FourHour => 14_400
    case Day => 86_400
  }

  lemma {:induction false} GatherCounts(byMinute: map<int, MinuteRow>, open: int, count: nat)
    requires Gather(byMinute, open, open + count * 900).Got?
    ensures var g := Gather(byMinute, open, open + count * 900).value; |g.filled| + g.empty == count
    decreases count
  {
    if count > 0 {
      assert open + count * 900 == (open + 900) + (count - 1) * 900;
      GatherCounts(byMinute, open + 900, count - 1);
    }
  }

  /**
   * The bars tile the window: from the first whole 1h, 4h or 1d on, one after another, as many as fit
   * before the end; each counts all its 4, 16 or 96 quarter-hours, traded or empty.
   */
  lemma {:induction false} BarsTileWindow(minutes: seq<MinuteRow>, timeframe: Timeframe, windowStart: int,
      windowEnd: int)
    returns (first: int)
    requires Derive(minutes, timeframe, windowStart, windowEnd).Got?
    ensures var bars, width := Derive(minutes, timeframe, windowStart, windowEnd).value, Width(timeframe);
            && first % width == 0 && windowStart <= first < windowStart + width
            && (forall i :: 0 <= i < |bars| ==>
                  && bars[i].openTs == first + i * width && bars[i].endTs == first + (i + 1) * width
                  && bars[i].timeframe == timeframe && bars[i].nonemptyMinutes + bars[i].emptyMinutes == width / 900)
            && (bars != [] ==> first + |bars| * width <= windowEnd)
            && windowEnd < first + (|bars| + 1) * width
  {
    hide BarAt, BarsFrom, ByMinute, CeilTo, Gather;
    var byMinute, width := ByMinute(minutes), Step(timeframe);
    first := CeilTo(windowStart, width);
    FirstWhole(windowStart, width);
    BarsAreLaid(byMinute, first, windowEnd, timeframe);
    var bars := Derive(minutes, timeframe, windowStart, windowEnd).value;
    forall i | 0 <= i < |bars|
      ensures bars[i].openTs == first + i * width && bars[i].endTs == first + (i + 1) * width
      ensures bars[i].timeframe == timeframe && bars[i].nonemptyMinutes + bars[i].emptyMinutes == width / 900
    {
      NextStep(first, i, width);
      BarCounts(byMinute, first + i * width, timeframe, bars[i]);
    }
    NextStep(first, |bars|, width);
  }

  lemma {:induction false} GatherExists(byMinute: map<int, MinuteRow>, open: int, count: nat)
    ensures Gather(byMinute, open, open + count * 900).Got? <==> AllThere(byMinute, open, count)
    ensures !Gather(byMinute, open, open + count * 900).NotADecimal?
    decreases count
  {
    if count > 0 {
      assert open + count * 900 == (open + 900) + (count - 1) * 900;
      GatherExists(byMinute, open + 900, count - 1);
      OneMoreThere(byMinute, open, count);
    }
  }

  ghost predicate AllThere(byMinute: map<int, MinuteRow>, open: int, count: nat) {
    forall i :: 0 <= i < count ==> open + i * 900 in byMinute
  }

  lemma {:induction false} OneMoreThere(byMinute: map<int, MinuteRow>, open: int, count: nat)
    requires count > 0
    ensures AllThere(byMinute, open, count) <==> open in byMinute && AllThere(byMinute, open + 900, count - 1)
  {
    if AllThere(byMinute, open, count) {
      assert open + 0 * 900 in byMinute;
      forall i | 0 <= i < count - 1 ensures (open + 900) + i * 900 in byMinute {
        assert open + (i + 1) * 900 in byMinute;
      }
    }
    if open in byMinute && AllThere(byMinute, open + 900, count - 1) {
      forall i | 0 <= i < count ensures open + i * 900 in byMinute {
        assert i > 0 ==> (open + 900) + (i - 1) * 900 == open + i * 900;
      }
    }
  }

  /** Every quarter-hour of the bucket is there, and the traded ones can be priced. */
  ghost predicate Derivable(byMinute: map<int, MinuteRow>, open: int, timeframe: Timeframe) {
    && AllThere(byMinute, open, Width(timeframe) / 900)
    && Readable(RowsIn(byMinute, open, Width(timeframe) / 900))
  }

  /** The traded rows of `count` quarter-hours, in order. */
  ghost function RowsIn(byMinute: map<int, MinuteRow>, open: int, count: nat): seq<MinuteRow> {
    if count == 0 then []
    else
      var last := open + (count - 1) * 900;
      RowsIn(byMinute, open, count - 1)
      + if last in byMinute && byMinute[last].TradedMinute? then [byMinute[last]] else []
  }

  lemma {:induction false} RowsInShift(byMinute: map<int, MinuteRow>, open: int, count: nat)
    requires count > 0
    ensures RowsIn(byMinute, open, count)
            == (if open in byMinute && byMinute[open].TradedMinute? then [byMinute[open]] else [])
               + RowsIn(byMinute, open + 900, count - 1)
  {
    if count > 1 {
      RowsInShift(byMinute, open, count - 1);
      assert open + (count - 1) * 900 == (open + 900) + (count - 2) * 900;
    }
  }

  lemma {:induction false} GatherIsRows(byMinute: map<int, MinuteRow>, open: int, count: nat)
    requires Gather(byMinute, open, open + count * 900).Got?
    ensures Gather(byMinute, open, open + count * 900).value.filled == RowsIn(byMinute, open, count)
    decreases count
  {
    if count > 0 {
      assert open + count * 900 == (open + 900) + (count - 1) * 900;
      GatherIsRows(byMinute, open + 900, count - 1);
      RowsInShift(byMinute, open, count);
    }
  }

  lemma {:induction false} BarExists(byMinute: map<int, MinuteRow>, open: int, timeframe: Timeframe)
    ensures BarAt(byMinute, open, open + Step(timeframe), timeframe).Got? <==> Derivable(byMinute, open, timeframe)
  {
    hide Gather, PricesOf, Readable, RowsIn, AllThere;
    var count := Step(timeframe) / 900;
    GatherExists(byMinute, open, count);
    if Gather(byMinute, open, open + count * 900).Got? {
      GatherIsRows(byMinute, open, count);
      GatherTraded(byMinute, open, open + Step(timeframe));
      PricesExist(RowsIn(byMinute, open, count));
    }
  }

  lemma {:induction false} DerivedExactly(minutes: seq<MinuteRow>, timeframe: Timeframe, windowStart: int,
      windowEnd: int)
    ensures Derive(minutes, timeframe, windowStart, windowEnd).Got?
       <==> AllDerivable(ByMinute(minutes), windowStart, windowEnd, timeframe)
  {
    hide BarsFrom, CeilTo, ByMinute, Step, AllDerivable;
    var first := CeilTo(windowStart, Step(timeframe));
    FirstWhole(windowStart, Step(timeframe));
    AllExist(ByMinute(minutes), first, windowEnd, timeframe);
    FromFirst(ByMinute(minutes), windowStart, first, windowEnd, timeframe);
  }

  /** Every whole bucket from `start` to the end can be derived. */
  ghost predicate AllDerivable(byMinute: map<int, MinuteRow>, start: int, windowEnd: int, timeframe: Timeframe) {
    forall open :: start <= open && open % Width(timeframe) == 0 && open + Width(timeframe) <= windowEnd
      ==> Derivable(byMinute, open, timeframe)
  }

  lemma {:induction false} FromFirst(byMinute: map<int, MinuteRow>, start: int, first: int, windowEnd: int,
      timeframe: Timeframe)
    requires first % Step(timeframe) == 0 && start <= first < start + Step(timeframe)
    ensures AllDerivable(byMinute, first, windowEnd, timeframe) <==> AllDerivable(byMinute, start, windowEnd, timeframe)
  {
    hide Derivable, Width, Step;
    SameWidth(timeframe);
    var width := Width(timeframe);
    if AllDerivable(byMinute, first, windowEnd, timeframe) {
      forall open | start <= open && open % width == 0 && open + width <= windowEnd
        ensures Derivable(byMinute, open, timeframe) {
        NoneBetween(start, first, open, width);
      }
    }
  }

  lemma SameWidth(timeframe: Timeframe)
    ensures Width(timeframe) == Step(timeframe)
  {
  }

  lemma {:induction false} NoneBetween(start: int, first: int, open: int, width: int)
    requires width > 0 && first % width == 0 && open % width == 0 && start <= open && first < start + width
    ensures first <= open
  {
    var a, b := first / width, open / width;
    assert first == width * a && open == width * b;
    if b < a {
      IntMonotone(width, b + 1, a);
    } else {
      IntMonotone(width, a, b);
    }
  }

  lemma {:induction false} AllExist(byMinute: map<int, MinuteRow>, first: int, windowEnd: int, timeframe: Timeframe)
    requires first % Step(timeframe) == 0
    ensures BarsFrom(byMinute, first, windowEnd, timeframe).Got?
       <==> AllDerivable(byMinute, first, windowEnd, timeframe)
    decreases windowEnd - first
  {
    hide BarAt, Derivable, Step, Width, AllDerivable;
    var step: F.Span := Step(timeframe);
    if first + step <= windowEnd {
      BarExists(byMinute, first, timeframe);
      DivShift(first, step, 1);
      AllExist(byMinute, first + step, windowEnd, timeframe);
      FirstAndRest(byMinute, first, windowEnd, timeframe);
    } else {
      NoneFits(byMinute, first, windowEnd, timeframe);
    }
  }

  lemma NoneFits(byMinute: map<int, MinuteRow>, first: int, windowEnd: int, timeframe: Timeframe)
    requires first + Step(timeframe) > windowEnd
    ensures AllDerivable(byMinute, first, windowEnd, timeframe)
  {
    hide Derivable;
  }

  lemma {:induction false} FirstAndRest(byMinute: map<int, MinuteRow>, first: int, windowEnd: int, timeframe: Timeframe)
    requires first % Step(timeframe) == 0 && first + Step(timeframe) <= windowEnd
    ensures AllDerivable(byMinute, first, windowEnd, timeframe)
       <==> Derivable(byMinute, first, timeframe)
            && AllDerivable(byMinute, first + Step(timeframe), windowEnd, timeframe)
  {
    hide Derivable, Width, Step;
    SameWidth(timeframe);
    var width := Width(timeframe);
    DivShift(first, width, 1);
    if Derivable(byMinute, first, timeframe) && AllDerivable(byMinute, first + width, windowEnd, timeframe) {
      forall open | first <= open && open % width == 0 && open + width <= windowEnd
        ensures Derivable(byMinute, open, timeframe) {
        if first < open {
          NoneBetween(first + 1, first + width, open, width);
        }
      }
    }
  }

  lemma FirstWhole(sec: int, width: F.Span)
    ensures CeilTo(sec, width) % width == 0 && sec <= CeilTo(sec, width) < sec + width
  {
    var q, r := -sec / width, -sec % width;
    assert -sec == width * q + r;
    assert CeilTo(sec, width) == -q * width == sec + r;
    DivShift(0, width, -q);
  }

  lemma {:induction false} BarCounts(byMinute: map<int, MinuteRow>, open: int, timeframe: Timeframe, bar: Bar)
    requires BarAt(byMinute, open, open + Step(timeframe), timeframe) == Got(bar)
    ensures bar.openTs == open && bar.endTs == open + Step(timeframe) && bar.timeframe == timeframe
    ensures bar.nonemptyMinutes + bar.emptyMinutes == Step(timeframe) / 900
  {
    hide Gather, PricesOf;
    GatherTraded(byMinute, open, open + Step(timeframe));
    GatherCounts(byMinute, open, Step(timeframe) / 900);
  }

  lemma NextStep(open: int, i: int, step: int)
    ensures open + step + i * step == open + (i + 1) * step
  {
  }

  lemma {:induction false} BarsExist(byMinute: map<int, MinuteRow>, open: int, windowEnd: int, timeframe: Timeframe)
    requires forall at :: at >= open && at % Step(timeframe) == 0 && at + Step(timeframe) <= windowEnd
                          ==> BarAt(byMinute, at, at + Step(timeframe), timeframe).Got?
    requires open % Step(timeframe) == 0
    ensures BarsFrom(byMinute, open, windowEnd, timeframe).Got?
    decreases windowEnd - open
  {
    hide BarAt;
    var step := Step(timeframe);
    if open + step <= windowEnd {
      DivShift(open, step, 1);
      BarsExist(byMinute, open + step, windowEnd, timeframe);
    }
  }

  function Between(bars: seq<Bar>, start: int, end: int): seq<Bar> {
    if bars == [] then []
    else
      var last := bars[|bars| - 1];
      Between(bars[..|bars| - 1], start, end) + if start <= last.openTs < end then [last] else []
  }

  lemma {:induction false} BetweenIsSlice(hours: seq<Bar>, start: int, end: int, i: nat, j: nat)
    requires i <= j <= |hours|
    requires forall k :: 0 <= k < i ==> hours[k].openTs < start
    requires forall k :: i <= k < j ==> start <= hours[k].openTs < end
    requires forall k :: j <= k < |hours| ==> end <= hours[k].openTs
    ensures Between(hours, start, end) == hours[i..j]
  {
    if hours != [] {
      var n := |hours| - 1;
      if j <= n {
        BetweenIsSlice(hours[..n], start, end, i, j);
        assert hours[..n][i..j] == hours[i..j];
      } else if i <= n {
        BetweenIsSlice(hours[..n], start, end, i, n);
        assert hours[..n][i..n] + [hours[n]] == hours[i..j];
      } else {
        BetweenIsSlice(hours[..n], start, end, n, n);
      }
    }
  }

  /** The bar is, text for text and count for count, the join of the hour bars inside it. */
  ghost predicate JoinsItsHours(bar: Bar, hours: seq<Bar>) {
    var part := Between(hours, bar.openTs, bar.endTs);
    && |part| * 3600 == bar.endTs - bar.openTs
    && bar.prices == JoinAll(part)
    && bar.nonemptyMinutes == Nonempty(part)
    && bar.emptyMinutes == EmptyCount(part)
  }

  lemma {:induction false} WideBarInWindow(byMinute: map<int, MinuteRow>, first: int, windowEnd: int, hours: seq<Bar>,
                                           at: int, timeframe: Timeframe)
    requires Laid(byMinute, first, windowEnd, Hour, hours)
    requires first <= at && first % 3600 == 0 && at % 3600 == 0 && at + Step(timeframe) <= windowEnd
    ensures BarAt(byMinute, at, at + Step(timeframe), timeframe).Got?
    ensures JoinsItsHours(BarAt(byMinute, at, at + Step(timeframe), timeframe).value, hours)
  {
    hide BarAt, JoinAll, Nonempty, EmptyCount, Between, Laid;
    var i, count := (at - first) / 3600, Step(timeframe) / 3600;
    HoursLaid(byMinute, first, windowEnd, hours);
    assert at == first + i * 3600 && Step(timeframe) == count * 3600;
    var part := hours[i..i + count];
    PartLaid(byMinute, first, hours, i, count);
    WideBar(byMinute, at, part, timeframe);
    HoursOpen(byMinute, first, hours);
    BetweenIsSlice(hours, at, at + Step(timeframe), i, i + count);
  }

  lemma {:induction false} HoursLaid(byMinute: map<int, MinuteRow>, first: int, windowEnd: int, hours: seq<Bar>)
    requires Laid(byMinute, first, windowEnd, Hour, hours)
    ensures HoursFrom(byMinute, first, hours) && windowEnd < first + |hours| * 3600 + 3600
  {
    hide BarAt;
  }

  lemma {:induction false} PartLaid(byMinute: map<int, MinuteRow>, first: int, hours: seq<Bar>, i: nat, count: nat)
    requires HoursFrom(byMinute, first, hours) && i + count <= |hours|
    ensures HoursFrom(byMinute, first + i * 3600, hours[i..i + count])
  {
    hide BarAt;
    var at, part := first + i * 3600, hours[i..i + count];
    forall k | 0 <= k < count ensures BarAt(byMinute, at + k * 3600, at + k * 3600 + 3600, Hour) == Got(part[k]) {
      var j := i + k;
      assert BarAt(byMinute, first + j * 3600, first + j * 3600 + 3600, Hour) == Got(hours[j]);
      assert part[k] == hours[j] && at + k * 3600 == first + j * 3600;
    }
  }

  lemma {:induction false} HoursOpen(byMinute: map<int, MinuteRow>, first: int, hours: seq<Bar>)
    requires HoursFrom(byMinute, first, hours)
    ensures forall k :: 0 <= k < |hours| ==> hours[k].openTs == first + k * 3600
  {
    hide BarAt;
    forall k | 0 <= k < |hours| ensures hours[k].openTs == first + k * 3600 {
      BarOpens(byMinute, first + k * 3600, first + k * 3600 + 3600, Hour);
    }
  }

  lemma CeilIsAligned(sec: int, step: F.Span)
    ensures CeilTo(sec, step) % step == 0 && sec <= CeilTo(sec, step) < sec + step
  {
    DivUnique(CeilTo(sec, step), step, -(-sec / step), 0);
    assert -sec == step * (-sec / step) + -sec % step;
  }

  lemma {:induction false} AlignedBarsJoin(byMinute: map<int, MinuteRow>, first: int, open: int, windowEnd: int,
      hours: seq<Bar>, timeframe: Timeframe)
    requires Laid(byMinute, first, windowEnd, Hour, hours) && first % 3600 == 0
    requires first < open + 3600 && open % Step(timeframe) == 0
    ensures forall at :: at >= open && at % Step(timeframe) == 0 && at + Step(timeframe) <= windowEnd ==>
              JoinsAt(byMinute, at, hours, timeframe)
  {
    hide BarAt, JoinsItsHours, Laid;
    var step := Step(timeframe);
    WholeHours(open, step);
    forall at | at >= open && at % step == 0 && at + step <= windowEnd ensures JoinsAt(byMinute, at, hours, timeframe) {
      WholeHours(at, step);
      WideBarInWindow(byMinute, first, windowEnd, hours, at, timeframe);
    }
  }

  ghost predicate JoinsAt(byMinute: map<int, MinuteRow>, at: int, hours: seq<Bar>, timeframe: Timeframe) {
    var bar := BarAt(byMinute, at, at + Step(timeframe), timeframe);
    bar.Got? && JoinsItsHours(bar.value, hours)
  }

  /** Whenever the hours can be derived, so can the wider bars, and each is the join of its hours. */
  lemma {:induction false} WideBarsJoinHours(minutes: seq<MinuteRow>, timeframe: Timeframe, windowStart: int,
      windowEnd: int)
    requires Derive(minutes, Hour, windowStart, windowEnd).Got?
    ensures Derive(minutes, timeframe, windowStart, windowEnd).Got?
    ensures forall bar :: bar in Derive(minutes, timeframe, windowStart, windowEnd).value ==>
              JoinsItsHours(bar, Derive(minutes, Hour, windowStart, windowEnd).value)
  {
    hide BarAt, JoinsItsHours, BarsFrom, ByMinute, Step, CeilTo;
    var byMinute, step := ByMinute(minutes), Step(timeframe);
    HourStep();
    var first, open := CeilTo(windowStart, 3600), CeilTo(windowStart, step);
    var hours := Derive(minutes, Hour, windowStart, windowEnd).value;
    BarsAreLaid(byMinute, first, windowEnd, Hour);
    CeilIsAligned(windowStart, 3600);
    CeilIsAligned(windowStart, step);
    AlignedBarsJoin(byMinute, first, open, windowEnd, hours, timeframe);
    EachBarJoins(byMinute, open, windowEnd, hours, timeframe);
  }

  lemma HourStep()
    ensures Step(Hour) == 3600
  {
  }

  lemma {:induction false} EachBarJoins(byMinute: map<int, MinuteRow>, open: int, windowEnd: int, hours: seq<Bar>,
      timeframe: Timeframe)
    requires open % Step(timeframe) == 0
    requires forall at :: at >= open && at % Step(timeframe) == 0 && at + Step(timeframe) <= windowEnd ==>
              JoinsAt(byMinute, at, hours, timeframe)
    ensures BarsFrom(byMinute, open, windowEnd, timeframe).Got?
    ensures forall bar :: bar in BarsFrom(byMinute, open, windowEnd, timeframe).value ==> JoinsItsHours(bar, hours)
  {
    hide BarAt, JoinsItsHours, BarsFrom, Step;
    var step := Step(timeframe);
    forall at | at >= open && at % step == 0 && at + step <= windowEnd
      ensures BarAt(byMinute, at, at + step, timeframe).Got? {
      assert JoinsAt(byMinute, at, hours, timeframe);
    }
    BarsExist(byMinute, open, windowEnd, timeframe);
    BarsAreLaid(byMinute, open, windowEnd, timeframe);
    var bars := BarsFrom(byMinute, open, windowEnd, timeframe).value;
    forall i | 0 <= i < |bars| ensures JoinsItsHours(bars[i], hours) {
      DivShift(open, step, i);
      BarInside(open, i, step, |bars|, windowEnd);
      LaidBarJoins(byMinute, open + i * step, hours, timeframe, bars[i]);
    }
  }

  lemma LaidBarJoins(byMinute: map<int, MinuteRow>, at: int, hours: seq<Bar>, timeframe: Timeframe, bar: Bar)
    requires JoinsAt(byMinute, at, hours, timeframe) && BarAt(byMinute, at, at + Step(timeframe), timeframe) == Got(bar)
    ensures JoinsItsHours(bar, hours)
  {
    hide BarAt, JoinsItsHours;
  }

  lemma BarInside(open: int, i: nat, step: F.Span, count: nat, windowEnd: int)
    requires i < count && open + count * step <= windowEnd
    ensures open <= open + i * step && open + i * step + step <= windowEnd
  {
    assert (i + 1) * step <= count * step;
  }

  lemma WholeHours(sec: int, step: F.Span)
    requires sec % step == 0 && step % 3600 == 0
    ensures sec % 3600 == 0
  {
    F.MultipleOfMultiple(sec, step, 3600);
  }
}
