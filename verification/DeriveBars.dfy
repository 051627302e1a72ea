/** Hour, four-hour and day bars from 15m minute rows, exact to the digit. */
module DeriveBars {
  import opened Basics
  import opened CandleChunks
  import opened Decimals
  import F = FoldHours

  const BAR_SEC: F.Span := 900

  datatype Timeframe = Hour | FourHour | Day

  function Step(timeframe: Timeframe): F.Span {
    match timeframe
    case Hour => 3600
    case FourHour => 14400
    case Day => 86400
  }

  /** Nothing in an empty bar; five canonical decimal texts otherwise. */
  datatype Prices = Empty | Prices(open: string, high: string, low: string, close: string, volume: string)

  datatype Bar = Bar(openTs: int, endTs: int, timeframe: Timeframe, prices: Prices, nonemptyMinutes: nat,
      emptyMinutes: nat)

  datatype Outcome<+T> = Got(value: T) | MissingMinute(sec: int) | NotADecimal

  // ----- one bucket

  datatype Gathered = Gathered(filled: seq<MinuteRow>, empty: nat)

  function Gather(byMinute: map<int, MinuteRow>, sec: int, end: int): Outcome<Gathered>
    decreases end - sec
  {
    if sec >= end then Got(Gathered([], 0))
    else if sec !in byMinute then MissingMinute(sec)
    else
      match Gather(byMinute, sec + BAR_SEC, end)
      case Got(g) =>
        if byMinute[sec].EmptyMinute? then Got(Gathered(g.filled, g.empty + 1))
        else Got(Gathered([byMinute[sec]] + g.filled, g.empty))
      case failed => failed
  }

  datatype Tally = Tally(high: string, low: string, volume: Decimal)

  function Higher(high: string, other: string): Option<string> {
    if Parse(high).None? || Parse(other).None? then None
    else Some(if CompareDecimal(Parse(other).value, Parse(high).value) > 0 then other else high)
  }

  function Lower(low: string, other: string): Option<string> {
    if Parse(low).None? || Parse(other).None? then None
    else Some(if CompareDecimal(Parse(other).value, Parse(low).value) < 0 then other else low)
  }

  function Advance(t: Tally, row: MinuteRow): Option<Tally>
    requires row.TradedMinute?
  {
    if Higher(t.high, row.high).None? || Lower(t.low, row.low).None? || Parse(row.volume).None? then None
    else Some(Tally(Higher(t.high, row.high).value, Lower(t.low, row.low).value,
        AddDecimal(t.volume, Parse(row.volume).value)))
  }

  predicate AllTraded(rows: seq<MinuteRow>) {
    forall row :: row in rows ==> row.TradedMinute?
  }

  function TallyOf(rows: seq<MinuteRow>): Option<Tally>
    requires rows != [] && AllTraded(rows)
  {
    var n := |rows| - 1;
    if n == 0 then
      if Parse(rows[0].volume).None? then None else Some(Tally(rows[0].high, rows[0].low, Parse(rows[0].volume).value))
    else
      match TallyOf(rows[..n])
      case None => None
      case Some(t) => Advance(t, rows[n])
  }

  function Rewrite(token: string): Option<string> {
    match Parse(token)
    case None => None
    case Some(d) => Some(Format(d))
  }

  function Priced(open: string, close: string, t: Tally): Option<Prices> {
    if Rewrite(open).None? || Rewrite(t.high).None? || Rewrite(t.low).None? || Rewrite(close).None? then None
    else Some(Prices(Rewrite(open).value, Rewrite(t.high).value, Rewrite(t.low).value, Rewrite(close).value,
        Format(t.volume)))
  }

  function PricesOf(filled: seq<MinuteRow>): Option<Prices>
    requires AllTraded(filled)
  {
    if filled == [] then Some(Empty)
    else
      match TallyOf(filled)
      case None => None
      case Some(t) => Priced(filled[0].open, filled[|filled| - 1].close, t)
  }

  function BarAt(byMinute: map<int, MinuteRow>, open: int, end: int, timeframe: Timeframe): Outcome<Bar> {
    match Gather(byMinute, open, end)
    case MissingMinute(sec) => MissingMinute(sec)
    case NotADecimal => NotADecimal
    case Got(g) =>
      GatherTraded(byMinute, open, end);
      match PricesOf(g.filled)
      case None => NotADecimal
      case Some(prices) => Got(Bar(open, end, timeframe, prices, |g.filled|, g.empty))
  }

  lemma {:induction false} GatherTraded(byMinute: map<int, MinuteRow>, sec: int, end: int)
    ensures !Gather(byMinute, sec, end).NotADecimal?
    ensures Gather(byMinute, sec, end).Got? ==> AllTraded(Gather(byMinute, sec, end).value.filled)
    decreases end - sec
  {
    if sec < end {
      GatherTraded(byMinute, sec + BAR_SEC, end);
    }
  }

  method Aggregate(byMinute: map<int, MinuteRow>, open: int, end: int, timeframe: Timeframe) returns (bar: Outcome<Bar>)
    ensures bar == BarAt(byMinute, open, end, timeframe)
  {
    hide Gather, PricesOf;
    GatherTraded(byMinute, open, end);
    var rows := GatherRows(byMinute, open, end);
    if rows.MissingMinute? {
      return MissingMinute(rows.sec);
    }
    var prices := Settle(rows.value.filled);
    bar := if prices.None? then NotADecimal
      else Got(Bar(open, end, timeframe, prices.value, |rows.value.filled|, rows.value.empty));
  }

  method GatherRows(byMinute: map<int, MinuteRow>, open: int, end: int) returns (rows: Outcome<Gathered>)
    ensures rows == Gather(byMinute, open, end)
  {
    var filled, emptyMinutes := [], 0;
    var minuteSec := open;
    AfterNothing(Gather(byMinute, open, end));
    while minuteSec < end
      invariant Gather(byMinute, open, end) == After(Gathered(filled, emptyMinutes), Gather(byMinute, minuteSec, end))
      decreases end - minuteSec
    {
      GatherTraded(byMinute, minuteSec, end);
      if minuteSec !in byMinute {
        return MissingMinute(minuteSec);
      }
      var row := byMinute[minuteSec];
      AfterOne(Gathered(filled, emptyMinutes), row, Gather(byMinute, minuteSec + BAR_SEC, end));
      if row.EmptyMinute? {
        emptyMinutes := emptyMinutes + 1;
      } else {
        filled := filled + [row];
      }
      minuteSec := minuteSec + BAR_SEC;
    }
    assert filled + [] == filled;
    rows := Got(Gathered(filled, emptyMinutes));
  }

  function After(before: Gathered, rest: Outcome<Gathered>): Outcome<Gathered> {
    if rest.Got? then Got(Gathered(before.filled + rest.value.filled, before.empty + rest.value.empty)) else rest
  }

  lemma AfterNothing(rest: Outcome<Gathered>)
    ensures After(Gathered([], 0), rest) == rest
  {
    if rest.Got? {
      assert [] + rest.value.filled == rest.value.filled;
    }
  }

  function One(row: MinuteRow): Gathered {
    if row.EmptyMinute? then Gathered([], 1) else Gathered([row], 0)
  }

  lemma AfterOne(before: Gathered, row: MinuteRow, rest: Outcome<Gathered>)
    ensures After(before, After(One(row), rest))
            == After(Gathered(before.filled + One(row).filled, before.empty + One(row).empty), rest)
  {
    if rest.Got? {
      assert before.filled + (One(row).filled + rest.value.filled)
          == (before.filled + One(row).filled) + rest.value.filled;
    }
  }

  method Settle(filled: seq<MinuteRow>) returns (prices: Option<Prices>)
    requires AllTraded(filled)
    ensures prices == PricesOf(filled)
  {
    hide Higher, Lower, Rewrite, AddDecimal, Parse;
    if filled == [] {
      return Some(Empty);
    }
    var volume := ParseDecimal(filled[0].volume);
    if volume.None? {
      TallyStaysNone(filled, 1);
      return None;
    }
    var tally := Tally(filled[0].high, filled[0].low, volume.value);
    for k := 1 to |filled|
      invariant TallyOf(filled[..k]) == Some(tally)
    {
      assert filled[..k + 1][..k] == filled[..k];
      var next := Advance(tally, filled[k]);
      if next.None? {
        TallyStaysNone(filled, k + 1);
        return None;
      }
      tally := next.value;
    }
    assert filled[..|filled|] == filled;
    prices := Priced(filled[0].open, filled[|filled| - 1].close, tally);
  }

  lemma {:induction false} TallyStaysNone(rows: seq<MinuteRow>, k: nat)
    requires 0 < k <= |rows| && AllTraded(rows) && TallyOf(rows[..k]) == None
    ensures TallyOf(rows) == None
  {
    hide Advance, Parse;
    var n := |rows| - 1;
    if k <= n {
      assert rows[..n][..k] == rows[..k];
      TallyStaysNone(rows[..n], k);
    } else {
      assert rows[..k] == rows;
    }
  }

  // ----- the whole window

  function ByMinute(minutes: seq<MinuteRow>): map<int, MinuteRow> {
    if minutes == [] then map[]
    else ByMinute(minutes[..|minutes| - 1])[minutes[|minutes| - 1].minuteSec := minutes[|minutes| - 1]]
  }

  function CeilTo(sec: int, step: F.Span): int {
    -(-sec / step) * step
  }

  function BarsFrom(byMinute: map<int, MinuteRow>, open: int, windowEnd: int, timeframe: Timeframe): Outcome<seq<Bar>>
    decreases windowEnd - open
  {
    if open + Step(timeframe) > windowEnd then Got([])
    else
      match BarAt(byMinute, open, open + Step(timeframe), timeframe)
      case MissingMinute(sec) => MissingMinute(sec)
      case NotADecimal => NotADecimal
      case Got(bar) =>
        match BarsFrom(byMinute, open + Step(timeframe), windowEnd, timeframe)
        case Got(rest) => Got([bar] + rest)
        case failed => failed
  }

  function Derive(minutes: seq<MinuteRow>, timeframe: Timeframe, windowStart: int, windowEnd: int): Outcome<seq<Bar>> {
    BarsFrom(ByMinute(minutes), CeilTo(windowStart, Step(timeframe)), windowEnd, timeframe)
  }

  method DeriveBars(minutes: seq<MinuteRow>, timeframe: Timeframe, windowStart: int, windowEnd: int)
      returns (out: Outcome<seq<Bar>>)
    ensures out == Derive(minutes, timeframe, windowStart, windowEnd)
  {
    hide BarAt;
    var step := Step(timeframe);
    var byMinute: map<int, MinuteRow> := map[];
    for k := 0 to |minutes|
      invariant byMinute == ByMinute(minutes[..k])
    {
      assert minutes[..k + 1][..k] == minutes[..k];
      byMinute := byMinute[minutes[k].minuteSec := minutes[k]];
    }
    assert minutes[..|minutes|] == minutes;
    var first := CeilTo(windowStart, step);
    var bars: seq<Bar> := [];
    var open := first;
    FollowNothing(BarsFrom(byMinute, first, windowEnd, timeframe));
    while open + step <= windowEnd
      invariant BarsFrom(byMinute, first, windowEnd, timeframe)
              == Follow(bars, BarsFrom(byMinute, open, windowEnd, timeframe))
      decreases windowEnd - open
    {
      var bar := Aggregate(byMinute, open, open + step, timeframe);
      match bar {
        case MissingMinute(sec) => return MissingMinute(sec);
        case NotADecimal => return NotADecimal;
        case Got(b) => {
          FollowOne(bars, b, BarsFrom(byMinute, open + step, windowEnd, timeframe));
          bars := bars + [b];
        }
      }
      open := open + step;
    }
    assert bars + [] == bars;
    out := Got(bars);
  }

  function Follow(bars: seq<Bar>, rest: Outcome<seq<Bar>>): Outcome<seq<Bar>> {
    if rest.Got? then Got(bars + rest.value) else rest
  }

  lemma FollowNothing(rest: Outcome<seq<Bar>>)
    ensures Follow([], rest) == rest
  {
    if rest.Got? {
      assert [] + rest.value == rest.value;
    }
  }

  lemma FollowOne(bars: seq<Bar>, bar: Bar, rest: Outcome<seq<Bar>>)
    ensures Follow(bars, Follow([bar], rest)) == Follow(bars + [bar], rest)
  {
    if rest.Got? {
      assert bars + ([bar] + rest.value) == (bars + [bar]) + rest.value;
    }
  }
}
