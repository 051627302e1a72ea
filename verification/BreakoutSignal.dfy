/** The breakout test: carried forward bar by bar in the backtest, recomputed from all bars by the live book. */
module BreakoutSignal {
  import opened Basics
  import opened Sorting
  import opened Breakout
  import F = FoldHours

  type Period = n: int | 1 <= n witness 1

  datatype Knobs = Knobs(breakoutBars: int, trendEmaBars: Period, atrBars: Period)

  // ----- the indicators, of all the bars so far

  function EmaNext(prev: Option<real>, x: real, period: Period): real {
    var k := 2.0 / (period + 1) as real;
    if prev == None then x else k * x + (1.0 - k) * prev.value
  }

  function Ema(bars: seq<Candle>, period: Period): (r: Option<real>)
    ensures r.Some? <==> bars != []
  {
    if bars == [] then None else Some(EmaNext(Ema(bars[..|bars| - 1], period), bars[|bars| - 1].close, period))
  }

  function Abs(x: real): real {
    if x < 0.0 then -x else x
  }

  function TrueRange(high: real, low: real, prevClose: Option<real>): real {
    var span := Max(0.0, high - low);
    if prevClose == None || prevClose.value <= 0.0 then span
    else Max(Max(span, Abs(high - prevClose.value)), Abs(low - prevClose.value))
  }

  function LastClose(bars: seq<Candle>): Option<real> {
    if bars == [] then None else Some(bars[|bars| - 1].close)
  }

  function Ranges(bars: seq<Candle>): (r: seq<real>)
    ensures |r| == |bars|
  {
    if bars == [] then []
    else
      var n := |bars| - 1;
      Ranges(bars[..n]) + [TrueRange(bars[n].high, bars[n].low, LastClose(bars[..n]))]
  }

  function Same(x: real): real {
    x
  }

  function Wilder(atr: real, tr: real, period: Period): real {
    (atr * (period - 1) as real + tr) / period as real
  }

  /** The mean true range of the first bars, then Wilder's smoothing. */
  function Atr(bars: seq<Candle>, period: Period): (r: Option<real>)
    ensures r.Some? <==> |bars| >= period
  {
    if |bars| < period then None
    else if |bars| == period then Some(Sum(Ranges(bars), Same) / period as real)
    else
      var n := |bars| - 1;
      Some(Wilder(Atr(bars[..n], period).value, Ranges(bars)[n], period))
  }

  method AtrNext(prevAtr: Option<real>, bar: Candle, prevClose: Option<real>, period: Period) returns (r: real)
    ensures prevAtr.Some? ==> r == Wilder(prevAtr.value, TrueRange(bar.high, bar.low, prevClose), period)
    ensures prevAtr.None? ==> r == TrueRange(bar.high, bar.low, prevClose)
  {
    var tr := TrueRange(bar.high, bar.low, prevClose);
    if prevAtr.None? {
      return tr;
    }
    r := (prevAtr.value * (period - 1) as real + tr) / period as real;
  }

  /** One more bar, seen by both indicators. */
  lemma {:induction false} OneMoreBar(bars: seq<Candle>, bar: Candle, knobs: Knobs)
    ensures Ema(bars + [bar], knobs.trendEmaBars)
            == Some(EmaNext(Ema(bars, knobs.trendEmaBars), bar.close, knobs.trendEmaBars))
    ensures LastClose(bars + [bar]) == Some(bar.close)
    ensures Ranges(bars + [bar]) == Ranges(bars) + [TrueRange(bar.high, bar.low, LastClose(bars))]
    ensures |bars| + 1 == knobs.atrBars
       ==> Atr(bars + [bar], knobs.atrBars) == Some(Sum(Ranges(bars + [bar]), Same) / knobs.atrBars as real)
    ensures |bars| >= knobs.atrBars
            ==> Atr(bars + [bar], knobs.atrBars)
                == Some(Wilder(Atr(bars, knobs.atrBars).value, TrueRange(bar.high, bar.low, LastClose(bars)),
                    knobs.atrBars))
  {
    hide EmaNext, TrueRange, Wilder;
    assert (bars + [bar])[..|bars|] == bars;
  }

  // ----- the indicators without their steps

  function Power(x: real, n: nat): real {
    if n == 0 then 1.0 else x * Power(x, n - 1)
  }

  /**
   * The weight of bar i of n: the newest counts 2 / (period + 1), each older one that much less;
   * the first takes the rest.
   */
  function EmaWeight(i: nat, n: nat, period: Period): real
    requires i < n
  {
    var k := 2.0 / (period + 1) as real;
    if i == 0 then Power(1.0 - k, n - 1) else k * Power(1.0 - k, n - 1 - i)
  }

  /** The closes of the first m bars, weighted among n. */
  function WeightedSum(bars: seq<Candle>, m: nat, n: nat, period: Period): real
    requires m <= |bars| && m <= n
  {
    if m == 0 then 0.0
    else WeightedSum(bars, m - 1, n, period) + EmaWeight(m - 1, n, period) * bars[m - 1].close
  }

  function WeightedCloses(bars: seq<Candle>, period: Period): real {
    WeightedSum(bars, |bars|, |bars|, period)
  }

  lemma {:induction false} WeightsShrink(bars: seq<Candle>, bar: Candle, m: nat, n: nat, period: Period)
    requires m <= n <= |bars|
    ensures WeightedSum(bars + [bar], m, n + 1, period)
            == (1.0 - 2.0 / (period + 1) as real) * WeightedSum(bars, m, n, period)
  {
    hide EmaWeight;
    if m > 0 {
      WeightsShrink(bars, bar, m - 1, n, period);
      OneWeight(m - 1, n, period, bars[m - 1].close);
      Gathered(1.0 - 2.0 / (period + 1) as real, WeightedSum(bars, m - 1, n, period),
          EmaWeight(m - 1, n, period) * bars[m - 1].close);
    }
  }

  lemma Gathered(k: real, x: real, y: real)
    ensures k * x + k * y == k * (x + y)
  {
  }

  lemma OneWeight(i: nat, n: nat, period: Period, x: real)
    requires i < n
    ensures EmaWeight(i, n + 1, period) * x == (1.0 - 2.0 / (period + 1) as real) * (EmaWeight(i, n, period) * x)
  {
    var k := 2.0 / (period + 1) as real;
    var rest := 1.0 - k;
    if i == 0 {
      assert Power(rest, n) == rest * Power(rest, n - 1);
      Moved(rest, Power(rest, n - 1), 1.0, x);
    } else {
      assert Power(rest, n - i) == rest * Power(rest, n - 1 - i);
      Moved(rest, Power(rest, n - 1 - i), k, x);
    }
  }

  lemma Moved(rest: real, power: real, k: real, x: real)
    ensures k * (rest * power) * x == rest * (k * power * x)
  {
    assert k * (rest * power) == rest * (k * power);
  }

  lemma {:induction false} EmaIsWeighted(bars: seq<Candle>, period: Period)
    requires bars != []
    ensures Ema(bars, period) == Some(WeightedCloses(bars, period))
  {
    hide WeightedSum, WeightedCloses, EmaNext;
    var n := |bars| - 1;
    LastWeight(bars, period);
    if n > 0 {
      var before := bars[..n];
      EmaIsWeighted(before, period);
      WeightsShrink(before, bars[n], n, n, period);
      assert before + [bars[n]] == bars;
      AllWeights(before, period);
      var prev, k := Ema(before, period).value, 2.0 / (period + 1) as real;
      NextIs(prev, bars[n].close, period);
      assert WeightedCloses(bars, period) == (1.0 - k) * prev + k * bars[n].close;
      assert Ema(bars, period).value == WeightedCloses(bars, period);
    } else {
      NoWeights(bars, period);
      assert bars[..n] == [];
      FirstIs(bars[n].close, period);
    }
  }

  lemma NextIs(prev: real, x: real, period: Period)
    ensures EmaNext(Some(prev), x, period)
            == (1.0 - 2.0 / (period + 1) as real) * prev + 2.0 / (period + 1) as real * x
  {
  }

  lemma FirstIs(x: real, period: Period)
    ensures EmaNext(None, x, period) == x == 1.0 * x
  {
  }

  lemma AllWeights(bars: seq<Candle>, period: Period)
    ensures WeightedCloses(bars, period) == WeightedSum(bars, |bars|, |bars|, period)
  {
  }

  lemma LastWeight(bars: seq<Candle>, period: Period)
    requires bars != []
    ensures var n, older := |bars| - 1, WeightedSum(bars, |bars| - 1, |bars|, period);
            && (n == 0 ==> WeightedCloses(bars, period) == older + 1.0 * bars[n].close)
            && (n > 0 ==> WeightedCloses(bars, period) == older + 2.0 / (period + 1) as real * bars[n].close)
  {
  }

  lemma NoWeights(bars: seq<Candle>, period: Period)
    requires bars != []
    ensures WeightedSum(bars, 0, 1, period) == 0.0
  {
  }

  /** Bar after bar, without division: the new close counts twice, the last EMA period - 1 times. */
  lemma {:induction false} EmaIsExact(bars: seq<Candle>, bar: Candle, period: Period)
    ensures bars == [] ==> Ema(bars + [bar], period) == Some(bar.close)
    ensures bars != [] ==> (period + 1) as real * Ema(bars + [bar], period).value
                           == 2.0 * bar.close + (period - 1) as real * Ema(bars, period).value
  {
    var n := (period + 1) as real;
    var k := 2.0 / n;
    assert (bars + [bar])[..|bars|] == bars;
    if bars != [] {
      var last := Ema(bars, period).value;
      QuotientTimes(2.0, n);
      TimesBoth(n, k, bar.close, last);
      assert (period - 1) as real == n - 2.0;
    }
  }

  lemma TimesBoth(n: real, k: real, x: real, y: real)
    requires n * k == 2.0
    ensures n * (k * x + (1.0 - k) * y) == 2.0 * x + (n - 2.0) * y
  {
    assert n * (k * x) == n * k * x;
    assert n * ((1.0 - k) * y) == (n - n * k) * y;
  }

  /** The sum of the true ranges, each against the close before. */
  function RangeSum(bars: seq<Candle>): real {
    if bars == [] then 0.0
    else
      var n := |bars| - 1;
      RangeSum(bars[..n])
      + TrueRange(bars[n].high, bars[n].low, if n == 0 then None else Some(bars[n - 1].close))
  }

  lemma {:induction false} RangesAddUp(bars: seq<Candle>)
    ensures Sum(Ranges(bars), Same) == RangeSum(bars)
  {
    hide TrueRange;
    if bars != [] {
      var n := |bars| - 1;
      RangesAddUp(bars[..n]);
      assert Ranges(bars)[..n] == Ranges(bars[..n]);
    }
  }

  /**
   * The ATR, without division: the mean true range of the first bars, then each new range counts
   * once, the last ATR period - 1 times.
   */
  lemma {:induction false} AtrIsExact(bars: seq<Candle>, bar: Candle, period: Period)
    ensures |bars| == period ==> period as real * Atr(bars, period).value == RangeSum(bars)
    ensures |bars| >= period ==> period as real * Atr(bars + [bar], period).value
                                 == (period - 1) as real * Atr(bars, period).value
                                    + TrueRange(bar.high, bar.low, Some(bars[|bars| - 1].close))
  {
    hide TrueRange, RangeSum, Ranges, Wilder, Ema, EmaNext, Sum;
    if |bars| == period {
      RangesAddUp(bars);
      QuotientTimes(RangeSum(bars), period as real);
    }
    if |bars| >= period {
      var range := TrueRange(bar.high, bar.low, Some(bars[|bars| - 1].close));
      OneMoreBar(bars, bar, Knobs(1, 1, period));
      WilderTimes(Atr(bars, period).value, range, period);
    }
  }

  lemma WilderTimes(atr: real, range: real, period: Period)
    ensures period as real * Wilder(atr, range, period) == (period - 1) as real * atr + range
  {
    QuotientTimes(atr * (period - 1) as real + range, period as real);
  }

  /** The largest of some highs; below every price when there are none. */
  datatype Level = Absent | Lowest | At(value: real)

  function Highest(highs: seq<real>): Level {
    if highs == [] then Lowest
    else
      match Highest(highs[..|highs| - 1])
      case At(x) => At(Max(x, highs[|highs| - 1]))
      case _ => At(highs[|highs| - 1])
  }

  predicate Above(x: real, level: Level) {
    level == Lowest || (level.At? && x > level.value)
  }

  function Highs(bars: seq<Candle>): (r: seq<real>)
    ensures |r| == |bars|
  {
    seq(|bars|, i requires 0 <= i < |bars| => bars[i].high)
  }

  /** Where a slice from k begins on n elements: a negative k counts from the end. */
  function SliceStart(n: nat, k: int): (start: nat)
    ensures start <= n
  {
    if k < 0 then MaxInt(n + k, 0) else MinInt(k, n)
  }

  /** The slice from -count: the last `count` elements, all for a count of zero, all but the first -count below that. */
  function Tail<T>(s: seq<T>, count: int): seq<T> {
    s[SliceStart(|s|, -count)..]
  }

  // ----- the backtest's verdict on its newest bar

  function RunPrior(bars: seq<Candle>, breakoutBars: int): Level
    requires bars != []
  {
    var before := Tail(Highs(bars[..|bars| - 1]), breakoutBars);
    if |before| >= breakoutBars then Highest(before) else Absent
  }

  predicate RunCandidate(bars: seq<Candle>, knobs: Knobs)
    requires bars != []
  {
    var close := bars[|bars| - 1].close;
    && |bars| >= knobs.trendEmaBars
    && |bars| >= knobs.atrBars
    && Above(close, RunPrior(bars, knobs.breakoutBars))
    && close > Ema(bars, knobs.trendEmaBars).value
  }

  /** The signal state the backtest carries from one completed bar to the next. */
  class SignalTest {
    const knobs: Knobs
    var completedHighs: seq<real>
    var ema: Option<real>
    var emaSamples: nat
    var atr: Option<real>
    var atrWarm: bool
    var atrSeed: seq<real>
    var prevClose: Option<real>
    ghost var seen: seq<Candle>

    ghost predicate Valid()
      reads this
    {
      && completedHighs == Highs(seen)
      && ema == Ema(seen, knobs.trendEmaBars)
      && emaSamples == |seen|
      && atr == Atr(seen, knobs.atrBars)
      && atrWarm == (|seen| >= knobs.atrBars)
      && (!atrWarm ==> atrSeed == Ranges(seen))
      && prevClose == LastClose(seen)
    }

    constructor (knobs: Knobs)
      ensures Valid() && seen == [] && this.knobs == knobs
    {
      this.knobs := knobs;
      completedHighs, ema, emaSamples := [], None, 0;
      atr, atrWarm, atrSeed, prevClose := None, false, [], None;
      seen := [];
    }

    method OnComplete(bar: Candle) returns (priorHigh: Level, candidate: bool)
      requires Valid()
      modifies this
      ensures Valid() && seen == old(seen) + [bar]
      ensures priorHigh == RunPrior(seen, knobs.breakoutBars)
      ensures candidate == RunCandidate(seen, knobs)
      ensures ema == Some(WeightedCloses(seen, knobs.trendEmaBars))
    {
      hide TrueRange, EmaNext, Ema, Atr, Ranges, LastClose, Wilder, WeightedSum;
      ghost var now := seen + [bar];
      OneMoreBar(seen, bar, knobs);
      assert now[..|seen|] == seen;
      var priorHighs := Tail(completedHighs, knobs.breakoutBars);
      priorHigh := if |priorHighs| >= knobs.breakoutBars then Highest(priorHighs) else Absent;
      ema := Some(EmaNext(ema, bar.close, knobs.trendEmaBars));
      emaSamples := emaSamples + 1;
      AdvanceAtr(bar);
      var ready := priorHigh != Absent && emaSamples >= knobs.trendEmaBars && atrWarm && atr.Some? && ema.Some?;
      candidate := ready && Above(bar.close, priorHigh) && bar.close > ema.value;
      completedHighs := completedHighs + [bar.high];
      prevClose := Some(bar.close);
      seen := now;
      assert completedHighs == Highs(seen);
      EmaIsWeighted(seen, knobs.trendEmaBars);
    }

    method AdvanceAtr(bar: Candle)
      requires atr == Atr(seen, knobs.atrBars) && atrWarm == (|seen| >= knobs.atrBars)
      requires (!atrWarm ==> atrSeed == Ranges(seen)) && prevClose == LastClose(seen)
      modifies `atr, `atrWarm, `atrSeed
      ensures atr == Atr(seen + [bar], knobs.atrBars) && atrWarm == (|seen| + 1 >= knobs.atrBars)
      ensures !atrWarm ==> atrSeed == Ranges(seen + [bar])
    {
      hide TrueRange, Ema, Atr, Ranges, LastClose, Sum, Wilder;
      OneMoreBar(seen, bar, knobs);
      var tr := TrueRange(bar.high, bar.low, prevClose);
      if !atrWarm {
        atrSeed := atrSeed + [tr];
        if |atrSeed| >= knobs.atrBars {
          atr := Some(Sum(atrSeed, Same) / knobs.atrBars as real);
          atrWarm := true;
        }
      } else if atr.Some? {
        var next := AtrNext(atr, bar, prevClose, knobs.atrBars);
        atr := Some(next);
      }
    }
  }

  // ----- the live book's snapshot

  datatype Snap = Snap(known: bool, candidate: bool, close: Option<real>, priorHigh: Level, ema: Option<real>,
      emaPrev: Option<real>, atr: Option<real>)

  const EMPTY_SNAP := Snap(false, false, None, Absent, None, None, None)

  /** The slice from -breakoutBars - 1 up to the newest bar. */
  function LiveWindow(bars: seq<Candle>, breakoutBars: int): seq<Candle>
    requires bars != []
  {
    var start := SliceStart(|bars|, -breakoutBars - 1);
    if start < |bars| - 1 then bars[start..|bars| - 1] else []
  }

  function LivePrior(bars: seq<Candle>, breakoutBars: int): Level
    requires bars != []
  {
    var prior := LiveWindow(bars, breakoutBars);
    if |prior| >= breakoutBars then Highest(Highs(prior)) else Absent
  }

  predicate LiveKnown(bars: seq<Candle>, knobs: Knobs)
    requires bars != []
  {
    |bars| >= knobs.atrBars && |bars| >= 2 && LivePrior(bars, knobs.breakoutBars) != Absent
  }

  function Snapshot(bars: seq<Candle>, knobs: Knobs): Snap {
    if |bars| < knobs.trendEmaBars then EMPTY_SNAP
    else
      var n := |bars| - 1;
      var prior := LivePrior(bars, knobs.breakoutBars);
      Snap(
        LiveKnown(bars, knobs),
        LiveKnown(bars, knobs) && Above(bars[n].close, prior) && bars[n].close > Ema(bars, knobs.trendEmaBars).value,
        Some(bars[n].close),
        prior,
        Ema(bars, knobs.trendEmaBars),
        Ema(bars[..n], knobs.trendEmaBars),
        Atr(bars, knobs.atrBars))
  }

  method SnapFromFourHour(buckets: seq<Candle>, knobs: Knobs) returns (snap: Snap)
    ensures snap == Snapshot(buckets, knobs)
    ensures |buckets| >= knobs.trendEmaBars ==> snap.ema == Some(WeightedCloses(buckets, knobs.trendEmaBars))
  {
    hide TrueRange, EmaNext, Ema, Atr, Ranges, LastClose, Sum, Wilder, Highest, Highs, Snapshot, WeightedSum;
    if |buckets| < knobs.trendEmaBars {
      NoSnapshot(buckets, knobs);
      return EMPTY_SNAP;
    }
    NoBars(knobs);
    var ema: Option<real>, emaPrev: Option<real> := None, None;
    var atr: Option<real>, atrSeed: seq<real>, atrWarm := None, [], false;
    var prevClose: Option<real> := None;
    for k := 0 to |buckets|
      invariant ema == Ema(buckets[..k], knobs.trendEmaBars)
      invariant k > 0 ==> emaPrev == Ema(buckets[..k - 1], knobs.trendEmaBars)
      invariant atr == Atr(buckets[..k], knobs.atrBars) && atrWarm == (k >= knobs.atrBars)
      invariant !atrWarm ==> atrSeed == Ranges(buckets[..k])
      invariant prevClose == LastClose(buckets[..k])
    {
      var bar := buckets[k];
      OneMoreBar(buckets[..k], bar, knobs);
      assert buckets[..k] + [bar] == buckets[..k + 1];
      emaPrev := ema;
      ema := Some(EmaNext(ema, bar.close, knobs.trendEmaBars));
      var tr := TrueRange(bar.high, bar.low, prevClose);
      if !atrWarm {
        atrSeed := atrSeed + [tr];
        if |atrSeed| >= knobs.atrBars {
          atr := Some(Sum(atrSeed, Same) / knobs.atrBars as real);
          atrWarm := true;
        }
      } else if atr.Some? {
        var next := AtrNext(atr, bar, prevClose, knobs.atrBars);
        atr := Some(next);
      }
      prevClose := Some(bar.close);
    }
    assert buckets[..|buckets|] == buckets;
    var last := buckets[|buckets| - 1];
    var start := SliceStart(|buckets|, -knobs.breakoutBars - 1);
    var prior := if start < |buckets| - 1 then buckets[start..|buckets| - 1] else [];
    var priorHigh := if |prior| >= knobs.breakoutBars then Highest(Highs(prior)) else Absent;
    SnapshotOf(buckets, knobs);
    EmaIsWeighted(buckets, knobs.trendEmaBars);
    var known := atrWarm && ema.Some? && emaPrev.Some? && priorHigh != Absent;
    var candidate := known && Above(last.close, priorHigh) && last.close > ema.value;
    snap := Snap(known, candidate, Some(last.close), priorHigh, ema, emaPrev, atr);
  }

  lemma NoSnapshot(buckets: seq<Candle>, knobs: Knobs)
    requires |buckets| < knobs.trendEmaBars
    ensures Snapshot(buckets, knobs) == EMPTY_SNAP
  {
  }

  lemma {:induction false} SnapshotOf(buckets: seq<Candle>, knobs: Knobs)
    requires |buckets| >= knobs.trendEmaBars
    ensures var n, prior := |buckets| - 1, LivePrior(buckets, knobs.breakoutBars);
            var ema, emaPrev := Ema(buckets, knobs.trendEmaBars), Ema(buckets[..n], knobs.trendEmaBars);
            var known := |buckets| >= knobs.atrBars && emaPrev.Some? && prior != Absent;
            Snapshot(buckets, knobs)
                == Snap(known, known && Above(buckets[n].close, prior) && buckets[n].close > ema.value,
                Some(buckets[n].close), prior, ema, emaPrev, Atr(buckets, knobs.atrBars))
  {
    hide EmaNext, Atr, LivePrior;
  }

  lemma NoBars(knobs: Knobs)
    ensures Ema([], knobs.trendEmaBars) == None && Ranges([]) == [] && LastClose([]) == None
            && Atr([], knobs.atrBars) == None
  {
  }

  // ----- they agree

  /**
   * The two windows: the same from a look-back of one bar on. For zero all earlier bars against
   * none; below that both leave out the first ones, the live book one fewer than the backtest.
   */
  lemma {:induction false} Windows(bars: seq<Candle>, breakoutBars: int)
    requires bars != []
    ensures var n, k := |bars| - 1, -breakoutBars;
            && Tail(Highs(bars[..n]), breakoutBars) == Highs(bars[SliceStart(n, k)..n])
            && (breakoutBars == 0 ==> LiveWindow(bars, breakoutBars) == [])
            && (breakoutBars != 0 && (breakoutBars < 0 ==> k <= n)
                ==> LiveWindow(bars, breakoutBars) == bars[if k > 0 then k - 1 else SliceStart(n, k)..n])
            && (k > n ==> LiveWindow(bars, breakoutBars) == bars[SliceStart(n, k)..n] == [])
  {
    var n, k := |bars| - 1, -breakoutBars;
    assert Highs(bars[..n])[SliceStart(n, k)..] == Highs(bars[SliceStart(n, k)..n]);
  }

  /** Among some highs, the first is in the way only if none of the others is as high. */
  lemma {:induction false} HighestFirst(highs: seq<real>)
    requires highs != []
    ensures Highest(highs) == if Above(highs[0], Highest(highs[1..])) then At(highs[0]) else Highest(highs[1..])
    ensures Highest(highs).At? && (highs[1..] != [] ==> Highest(highs[1..]).At?)
  {
    var n := |highs| - 1;
    if n > 0 {
      HighestFirst(highs[..n]);
      assert highs[1..][..n - 1] == highs[..n][1..];
    } else {
      assert highs[..0] == [] && highs[1..] == [];
    }
  }

  /** A look-back below zero: the bar that only the live book looks at, and the ones both do. */
  lemma {:induction false} OneMoreLive(bars: seq<Candle>, breakoutBars: int)
    requires breakoutBars < 0 && -breakoutBars < |bars|
    ensures var high, rest := bars[-breakoutBars - 1].high, Highest(Highs(bars[-breakoutBars..|bars| - 1]));
            && RunPrior(bars, breakoutBars) == rest
            && LivePrior(bars, breakoutBars) == if Above(high, rest) then At(high) else rest
  {
    hide Highest;
    var n, k := |bars| - 1, -breakoutBars;
    Windows(bars, breakoutBars);
    HighestFirst(Highs(bars[k - 1..n]));
    assert Highs(bars[k - 1..n])[1..] == Highs(bars[k..n]);
  }

  /**
   * The two prior highs agree from a look-back of one bar on. For zero they do when there is no
   * earlier bar; below that when the bar only the live book looks at is missing or not the highest.
   */
  lemma {:induction false} PriorsAgreeExactly(bars: seq<Candle>, breakoutBars: int)
    requires bars != []
    ensures RunPrior(bars, breakoutBars) == LivePrior(bars, breakoutBars)
       <==> breakoutBars >= 1 || (breakoutBars == 0 && |bars| == 1)
            || (breakoutBars < 0 && (-breakoutBars < |bars| ==>
                  !Above(bars[-breakoutBars - 1].high, Highest(Highs(bars[-breakoutBars..|bars| - 1])))))
  {
    hide Highest;
    var n := |bars| - 1;
    Windows(bars, breakoutBars);
    if breakoutBars < 0 && -breakoutBars <= n {
      OneMoreLive(bars, breakoutBars);
    } else if breakoutBars == 0 {
      ZeroPriors(bars);
    }
  }

  lemma {:induction false} AboveAll(x: real, highs: seq<real>)
    ensures Above(x, Highest(highs)) <==> forall i :: 0 <= i < |highs| ==> x > highs[i]
  {
    if highs != [] {
      var n := |highs| - 1;
      AboveAll(x, highs[..n]);
      assert highs == highs[..n] + [highs[n]];
    }
  }

  /**
   * The backtest's verdict: enough bars for the look-back, the EMA and the ATR, and a close above the
   * EMA and above the high of every bar of the look-back. A look-back of zero or less takes every
   * earlier bar but the first -breakoutBars.
   */
  lemma {:induction false} VerdictMeans(bars: seq<Candle>, knobs: Knobs)
    requires bars != []
    ensures var n, b := |bars| - 1, knobs.breakoutBars;
            RunCandidate(bars, knobs) <==>
              && b <= n && |bars| >= knobs.trendEmaBars && |bars| >= knobs.atrBars
              && bars[n].close > WeightedCloses(bars, knobs.trendEmaBars)
              && forall i :: (if b > 0 then n - b else -b) <= i < n ==> bars[n].close > bars[i].high
  {
    hide Ema, Highest, WeightedSum, Above;
    var n, b := |bars| - 1, knobs.breakoutBars;
    var highs := Tail(Highs(bars[..n]), b);
    var start := SliceStart(n, -b);
    EmaIsWeighted(bars, knobs.trendEmaBars);
    AboveAll(bars[n].close, highs);
    assert |highs| == n - start && forall i :: 0 <= i < |highs| ==> highs[i] == bars[start + i].high;
    assert forall i :: start <= i < n ==> bars[i].high == highs[i - start];
    NothingAboveAbsent(bars[n].close);
  }

  lemma NothingAboveAbsent(x: real)
    ensures !Above(x, Absent)
  {
  }

  lemma {:induction false} ZeroPriors(bars: seq<Candle>)
    requires bars != []
    ensures LivePrior(bars, 0) == Lowest && RunPrior(bars, 0) == Highest(Highs(bars[..|bars| - 1]))
    ensures RunPrior(bars, 0) == Lowest <==> |bars| == 1
  {
    Windows(bars, 0);
    assert Highs([]) == [];
    if |bars| > 1 {
      HighestFirst(Highs(bars[..|bars| - 1]));
    }
  }

  /**
   * The look-back decides: both sides are ready and the close is above the EMA. With a look-back of
   * zero it is not above every earlier high; below zero it is above those the backtest looks at, but
   * not above the one more that the live book does.
   */
  predicate LookBackMatters(bars: seq<Candle>, knobs: Knobs)
    requires bars != []
  {
    var n, k := |bars| - 1, -knobs.breakoutBars;
    && n >= 1 && |bars| >= knobs.trendEmaBars && |bars| >= knobs.atrBars
    && bars[n].close > Ema(bars, knobs.trendEmaBars).value
    && (if k == 0 then !Above(bars[n].close, Highest(Highs(bars[..n])))
        else
          && 0 < k <= n && bars[n].close <= bars[k - 1].high && Above(bars[n].close, Highest(Highs(bars[k..n]))))
  }

  lemma {:induction false} VerdictsAgreeExactly(bars: seq<Candle>, knobs: Knobs)
    requires bars != []
    ensures Snapshot(bars, knobs).candidate == RunCandidate(bars, knobs) <==> !LookBackMatters(bars, knobs)
  {
    hide Ema, Atr, RunPrior, LivePrior, Highest, Highs, Snapshot, RunCandidate, LookBackMatters;
    if knobs.breakoutBars >= 1 {
      LiveAgreesWithRun(bars, knobs);
      NeverMatters(bars, knobs);
    } else {
      VerdictsByPriors(bars, knobs);
      PriorsDecide(bars, knobs);
    }
  }

  lemma NeverMatters(bars: seq<Candle>, knobs: Knobs)
    requires bars != [] && knobs.breakoutBars >= 1
    ensures !LookBackMatters(bars, knobs)
  {
    hide Ema, Highest, Highs;
  }

  ghost predicate BothReady(bars: seq<Candle>, knobs: Knobs)
    requires bars != []
  {
    && |bars| >= 2 && |bars| >= knobs.trendEmaBars && |bars| >= knobs.atrBars
    && bars[|bars| - 1].close > Ema(bars, knobs.trendEmaBars).value
  }

  /** Below a look-back of one, once both sides are ready, the verdicts are those of the prior highs. */
  lemma {:induction false} VerdictsByPriors(bars: seq<Candle>, knobs: Knobs)
    requires bars != [] && knobs.breakoutBars <= 0
    ensures var close := bars[|bars| - 1].close;
            && Snapshot(bars, knobs).candidate
               == (BothReady(bars, knobs) && Above(close, LivePrior(bars, knobs.breakoutBars)))
            && RunCandidate(bars, knobs)
               == (BothReady(bars, knobs) && Above(close, RunPrior(bars, knobs.breakoutBars)))
  {
    hide Ema, Atr, RunPrior, LivePrior;
    FirstEma(bars, knobs.trendEmaBars);
    PriorIsKnown(bars, knobs.breakoutBars);
  }

  lemma {:induction false} PriorsDecide(bars: seq<Candle>, knobs: Knobs)
    requires bars != [] && knobs.breakoutBars <= 0
    ensures LookBackMatters(bars, knobs)
       <==> BothReady(bars, knobs)
            && Above(bars[|bars| - 1].close, LivePrior(bars, knobs.breakoutBars))
               != Above(bars[|bars| - 1].close, RunPrior(bars, knobs.breakoutBars))
  {
    hide Ema, Highs, Highest, RunPrior, LivePrior;
    if knobs.breakoutBars == 0 {
      ZeroPriors(bars);
    } else if -knobs.breakoutBars < |bars| {
      OneMoreLive(bars, knobs.breakoutBars);
    } else {
      PriorsAgreeExactly(bars, knobs.breakoutBars);
    }
  }

  lemma PriorIsKnown(bars: seq<Candle>, breakoutBars: int)
    requires bars != [] && breakoutBars <= 0
    ensures RunPrior(bars, breakoutBars) != Absent && LivePrior(bars, breakoutBars) != Absent
  {
  }

  lemma FirstEma(bars: seq<Candle>, period: Period)
    requires bars != []
    ensures |bars| == 1 ==> Ema(bars, period) == Some(bars[0].close)
  {
  }

  /** On every list of completed bars the live candidate is the backtest's. */
  lemma {:induction false} LiveAgreesWithRun(bars: seq<Candle>, knobs: Knobs)
    requires bars != [] && knobs.breakoutBars >= 1
    ensures Snapshot(bars, knobs).candidate == RunCandidate(bars, knobs)
    ensures Snapshot(bars, knobs).known ==> Snapshot(bars, knobs).priorHigh == RunPrior(bars, knobs.breakoutBars)
  {
    hide Ema, Atr, RunPrior, LivePrior;
    PriorsAgreeExactly(bars, knobs.breakoutBars);
    RunPriorNeedsBars(bars, knobs.breakoutBars);
  }

  lemma RunPriorNeedsBars(bars: seq<Candle>, breakoutBars: int)
    requires bars != [] && breakoutBars >= 1
    ensures RunPrior(bars, breakoutBars) != Absent ==> |bars| >= 2
  {
  }

  /** A look-back of zero bars: the live book sees a breakout where the backtest sees none. */
  lemma ZeroLookBackDisagrees()
    ensures var knobs := Knobs(0, 2, 1);
            var bars := [F.FoldBar(0, 5.0, 10.0, 5.0, 5.0, 1.0), F.FoldBar(1, 6.0, 6.0, 6.0, 6.0, 1.0)];
            Snapshot(bars, knobs).candidate && !RunCandidate(bars, knobs)
  {
    var bars := [F.FoldBar(0, 5.0, 10.0, 5.0, 5.0, 1.0), F.FoldBar(1, 6.0, 6.0, 6.0, 6.0, 1.0)];
    assert bars[..1] == [bars[0]] && bars[..1][..0] == [];
    assert Highs(bars[..1]) == [10.0] && [10.0][..0] == [];
    assert RunPrior(bars, 0) == At(10.0);
    ZeroPriors(bars);
    assert Ema(bars[..1], 2) == Some(5.0);
    assert Ema(bars, 2).value < 6.0;
  }

  /** A look-back below zero, on the same bars: the backtest sees a breakout where the live book sees none. */
  lemma NegativeLookBackDisagrees()
    ensures var knobs := Knobs(-1, 2, 1);
            var bars := [F.FoldBar(0, 5.0, 10.0, 5.0, 5.0, 1.0), F.FoldBar(1, 6.0, 6.0, 6.0, 6.0, 1.0)];
            !Snapshot(bars, knobs).candidate && RunCandidate(bars, knobs)
  {
    var bars := [F.FoldBar(0, 5.0, 10.0, 5.0, 5.0, 1.0), F.FoldBar(1, 6.0, 6.0, 6.0, 6.0, 1.0)];
    assert bars[..1] == [bars[0]] && bars[..1][..0] == [];
    assert Highs(bars[1..1]) == [];
    OneMoreLive(bars, -1);
    assert Ema(bars[..1], 2) == Some(5.0);
    assert Ema(bars, 2).value < 6.0;
  }

  // ----- the backtest's loop over its candles

  function Usable(candles: seq<Candle>): seq<Candle> {
    if candles == [] then []
    else
      var c := candles[|candles| - 1];
      Usable(candles[..|candles| - 1]) + if c.close > 0.0 && c.high > 0.0 && c.low > 0.0 then [c] else []
  }

  lemma {:induction false} UsableClose(candles: seq<Candle>)
    ensures forall c :: c in Usable(candles) ==> c.close > 0.0
  {
    if candles != [] {
      UsableClose(candles[..|candles| - 1]);
    }
  }

  /**
   * The backtest takes exactly the candles with a close, a high and a low above nothing, each as
   * often as it is there.
   */
  lemma {:induction false} UsableExactly(candles: seq<Candle>, c: Candle)
    ensures multiset(Usable(candles))[c]
            == if c.close > 0.0 && c.high > 0.0 && c.low > 0.0 then multiset(candles)[c] else 0
  {
    if candles != [] {
      var n := |candles| - 1;
      UsableExactly(candles[..n], c);
      assert candles == candles[..n] + [candles[n]];
    }
  }

  lemma {:induction false} OrderedCandles(candles: seq<Candle>)
    ensures InTime(Sort(Usable(candles), Earlier)) && AllClose(Sort(Usable(candles), Earlier))
  {
    hide Usable;
    var ordered := Sort(Usable(candles), Earlier);
    SortSorted(Usable(candles), Earlier);
    UsableClose(candles);
    forall i | 0 <= i < |ordered| ensures ordered[i].close > 0.0 {
      assert ordered[i] in multiset(ordered) && ordered[i] in multiset(Usable(candles));
    }
    forall i, j | 0 <= i < j < |ordered| ensures ordered[i].ts <= ordered[j].ts {
      assert !Earlier(ordered[j], ordered[i]);
    }
  }

  /** What the backtest carries, and says, after one completed bar. */
  datatype Carried = Carried(ema: Option<real>, atr: Option<real>, priorHigh: Level, candidate: bool)

  function CarriedAfter(bars: seq<Candle>, knobs: Knobs): Carried
    requires bars != []
  {
    Carried(
      Ema(bars, knobs.trendEmaBars),
      Atr(bars, knobs.atrBars),
      RunPrior(bars, knobs.breakoutBars),
      RunCandidate(bars, knobs))
  }

  lemma CarriedEma(bars: seq<Candle>, knobs: Knobs)
    requires bars != []
    ensures CarriedAfter(bars, knobs).ema == Some(WeightedCloses(bars, knobs.trendEmaBars))
  {
    hide Atr, RunPrior, RunCandidate, WeightedSum;
    EmaIsWeighted(bars, knobs.trendEmaBars);
  }

  /**
   * The live snapshot has the carried EMA and ATR as soon as it has any. With a look-back of a bar
   * or more it has the carried prior high whenever it knows one, and always the same verdict.
   */
  ghost predicate Matches(carried: Carried, snap: Snap, count: nat, knobs: Knobs) {
    && (count >= knobs.trendEmaBars ==> carried.ema == snap.ema && carried.atr == snap.atr)
    && (knobs.breakoutBars >= 1 ==>
          && carried.candidate == snap.candidate
          && (snap.known ==> carried.priorHigh == snap.priorHigh))
  }

  /**
   * The backtest's completed bars are what aggregating its candles gives, and after each of them
   * what it carries matches the live snapshot of the bars so far.
   */
  method RunSignals(candles: seq<Candle>, bucketSec: F.Span, knobs: Knobs)
    returns (completed: seq<Candle>, carried: seq<Carried>)
    ensures completed == Aggregated(Sort(Usable(candles), Earlier), bucketSec * 1000)
    ensures |carried| == |completed|
    ensures forall i :: 0 <= i < |completed| ==> carried[i] == CarriedAfter(completed[..i + 1], knobs)
    ensures forall i :: 0 <= i < |completed| ==>
              Matches(carried[i], Snapshot(completed[..i + 1], knobs), i + 1, knobs)
    ensures forall i :: 0 <= i < |completed| ==>
              carried[i].ema == Some(WeightedCloses(completed[..i + 1], knobs.trendEmaBars))
  {
    hide Sort, Usable, CarriedAfter, WeightedCloses, Snapshot, F.FloorTo, Aggregated, InTime, AllClose, Grown, Grow,
        RunPrior,
        Matches, Recorded, Standing, Max, Min;
    var span: F.Span := bucketSec * 1000;
    var ordered := Sort(Usable(candles), Earlier);
    OrderedCandles(candles);
    CompletedIsAggregated(ordered, span);
    completed, carried := [], [];
    OneBucket(ordered, span);
    NothingRecorded(knobs);
    NothingStands();
    if |ordered| < 2 {
      return;
    }
    var test := new SignalTest(knobs);
    var building: Option<Candle> := None;
    for k := 0 to |ordered|
      invariant fresh(test) && test.Valid() && test.knobs == knobs && test.seen == completed
      invariant Grown(ordered[..k], span) == Standing(completed, building)
      invariant k > 0 ==> building.Some?
      invariant k == 0 ==> completed == [] && building == None
      invariant Recorded(completed, carried, knobs)
    {
      var bar := ordered[k];
      GrownNext(ordered, k, span);
      GrowsInto(completed, building, bar, span);
      var id := F.FloorTo(bar.ts, span);
      if building.Some? && building.value.ts != id {
        var now := Advance(test, building.value);
        RecordedMore(completed, carried, building.value, now, knobs);
        completed, carried := completed + [building.value], carried + [now];
        building := None;
      }
      if building.None? {
        building := Some(F.FoldBar(id, bar.open, bar.high, bar.low, bar.close, bar.volume));
      } else {
        var b := building.value;
        building := Some(F.FoldBar(id, b.open, Max(b.high, bar.high), Min(b.low, bar.low), bar.close,
            b.volume + bar.volume));
      }
    }
    assert ordered[..|ordered|] == ordered;
    StandingLast(completed, building);
    RecordedMeans(completed, carried, knobs);
    RecordedMatches(completed, carried, knobs);
    RecordedEma(completed, carried, knobs);
  }

  /** The completed buckets, and the one being built. */
  function Standing(completed: seq<Candle>, building: Option<Candle>): seq<Candle> {
    completed + if building.Some? then [building.value] else []
  }

  /** One more candle joins the bucket being built, or completes it and opens its own. */
  lemma {:induction false} GrowsInto(completed: seq<Candle>, building: Option<Candle>, bar: Candle, span: F.Span)
    requires building == None ==> completed == []
    ensures var id := F.FloorTo(bar.ts, span);
            var alone := F.FoldBar(id, bar.open, bar.high, bar.low, bar.close, bar.volume);
            Grow(Standing(completed, building), bar, span) ==
              if building == None then Standing(completed, Some(alone))
              else
                var b := building.value;
                if b.ts != id then Standing(completed + [b], Some(alone))
                else Standing(completed,
                    Some(F.FoldBar(id, b.open, Max(b.high, bar.high), Min(b.low, bar.low), bar.close,
                    b.volume + bar.volume)))
  {
    hide F.FloorTo;
    if building.Some? {
      var bars := Standing(completed, building);
      assert bars[..|bars| - 1] == completed && bars[|bars| - 1] == building.value;
    } else {
      assert Standing(completed, building) == [];
    }
  }

  lemma StandingLast(completed: seq<Candle>, building: Option<Candle>)
    requires building.Some?
    ensures var bars := Standing(completed, building); bars != [] && bars[..|bars| - 1] == completed
  {
  }

  lemma RecordedMeans(completed: seq<Candle>, carried: seq<Carried>, knobs: Knobs)
    requires Recorded(completed, carried, knobs)
    ensures |carried| == |completed|
    ensures forall i :: 0 <= i < |completed| ==> carried[i] == CarriedAfter(completed[..i + 1], knobs)
  {
    hide CarriedAfter;
  }

  lemma NothingStands()
    ensures Standing([], None) == []
  {
  }

  lemma NothingRecorded(knobs: Knobs)
    ensures Recorded([], [], knobs)
  {
  }

  method Advance(test: SignalTest, bar: Candle) returns (now: Carried)
    requires test.Valid()
    modifies test
    ensures test.Valid() && test.seen == old(test.seen) + [bar]
    ensures now == CarriedAfter(test.seen, test.knobs)
  {
    hide RunPrior, RunCandidate, Ema, Atr;
    var priorHigh, candidate := test.OnComplete(bar);
    now := Carried(test.ema, test.atr, priorHigh, candidate);
  }

  lemma {:induction false} GrownNext(ordered: seq<Candle>, k: nat, span: F.Span)
    requires k < |ordered|
    ensures Grown(ordered[..k + 1], span) == Grow(Grown(ordered[..k], span), ordered[k], span)
  {
    hide Grow;
    assert ordered[..k + 1][..k] == ordered[..k];
  }

  ghost predicate Recorded(completed: seq<Candle>, carried: seq<Carried>, knobs: Knobs) {
    && |carried| == |completed|
    && forall i :: 0 <= i < |completed| ==> carried[i] == CarriedAfter(completed[..i + 1], knobs)
  }

  lemma {:induction false} RecordedMore(completed: seq<Candle>, carried: seq<Carried>, bar: Candle, now: Carried,
      knobs: Knobs)
    requires Recorded(completed, carried, knobs) && now == CarriedAfter(completed + [bar], knobs)
    ensures Recorded(completed + [bar], carried + [now], knobs)
  {
    hide CarriedAfter;
    var more := completed + [bar];
    forall i | 0 <= i < |more| ensures (carried + [now])[i] == CarriedAfter(more[..i + 1], knobs) {
      assert more[..i + 1] == if i < |completed| then completed[..i + 1] else more;
    }
  }

  lemma {:induction false} RecordedMatches(completed: seq<Candle>, carried: seq<Carried>, knobs: Knobs)
    requires Recorded(completed, carried, knobs)
    ensures forall i :: 0 <= i < |completed| ==>
              Matches(carried[i], Snapshot(completed[..i + 1], knobs), i + 1, knobs)
  {
    hide CarriedAfter, Snapshot, Matches;
    forall i | 0 <= i < |completed| ensures Matches(carried[i], Snapshot(completed[..i + 1], knobs), i + 1, knobs) {
      SnapshotMatches(completed[..i + 1], knobs);
    }
  }

  lemma {:induction false} RecordedEma(completed: seq<Candle>, carried: seq<Carried>, knobs: Knobs)
    requires Recorded(completed, carried, knobs)
    ensures forall i :: 0 <= i < |completed| ==>
              carried[i].ema == Some(WeightedCloses(completed[..i + 1], knobs.trendEmaBars))
  {
    hide CarriedAfter, WeightedCloses;
    forall i | 0 <= i < |completed|
      ensures carried[i].ema == Some(WeightedCloses(completed[..i + 1], knobs.trendEmaBars)) {
      CarriedEma(completed[..i + 1], knobs);
    }
  }

  /** The live snapshot of any completed bars matches what the backtest carries after them. */
  lemma {:induction false} SnapshotMatches(bars: seq<Candle>, knobs: Knobs)
    requires bars != []
    ensures Matches(CarriedAfter(bars, knobs), Snapshot(bars, knobs), |bars|, knobs)
  {
    hide Ema, Atr, RunPrior, LivePrior, RunCandidate;
    if knobs.breakoutBars >= 1 {
      LiveAgreesWithRun(bars, knobs);
    }
  }

  lemma OneBucket(ordered: seq<Candle>, span: F.Span)
    ensures Grown([], span) == [] && (|ordered| == 1 ==> |Grown(ordered, span)| == 1)
  {
    assert ordered[..0] == [];
  }

  lemma {:induction false} CompletedStays(ordered: seq<Candle>, k: nat, span: F.Span)
    requires k <= |ordered| && InTime(ordered) && AllClose(ordered)
    ensures Aggregated(ordered[..k], span) <= Aggregated(ordered, span)
  {
    hide Aggregated;
    if k < |ordered| {
      var n := |ordered| - 1;
      CompletedStays(ordered[..n], k, span);
      assert ordered[..n][..k] == ordered[..k];
      OneMoreCompletes(ordered, span);
    } else {
      assert ordered[..k] == ordered;
    }
  }

  lemma {:induction false} OneMoreCompletes(ordered: seq<Candle>, span: F.Span)
    requires ordered != [] && InTime(ordered) && AllClose(ordered)
    ensures Aggregated(ordered[..|ordered| - 1], span) <= Aggregated(ordered, span)
  {
    hide Aggregated, Grow, Grown;
    var n := |ordered| - 1;
    CompletedIsAggregated(ordered[..n], span);
    CompletedIsAggregated(ordered, span);
    GrownUnfolds(ordered, span);
    if n > 0 {
      GrownUnfolds(ordered[..n], span);
      GrowKeeps(Grown(ordered[..n], span), ordered[n], span);
    }
  }

  lemma GrownUnfolds(ordered: seq<Candle>, span: F.Span)
    requires ordered != []
    ensures Grown(ordered, span) == Grow(Grown(ordered[..|ordered| - 1], span), ordered[|ordered| - 1], span) != []
  {
  }

  lemma GrowKeeps(grown: seq<Candle>, bar: Candle, span: F.Span)
    requires grown != []
    ensures Grow(grown, bar, span) != []
    ensures grown[..|grown| - 1] <= Grow(grown, bar, span)[..|Grow(grown, bar, span)| - 1]
  {
    hide F.FloorTo;
  }

  // ----- what the indicators mean

  /** The true range is the whole stretch of prices since the previous close. */
  lemma TrueRangeSpans(high: real, low: real, prevClose: Option<real>)
    requires low <= high
    ensures prevClose.Some? && prevClose.value > 0.0
            ==> TrueRange(high, low, prevClose) == Max(high, prevClose.value) - Min(low, prevClose.value)
    ensures prevClose == None ==> TrueRange(high, low, prevClose) == high - low
  {
  }

  /** An EMA never leaves the range of the closes it has seen. */
  lemma {:induction false} EmaStaysBetween(bars: seq<Candle>, period: Period, low: real, high: real)
    requires bars != [] && forall i :: 0 <= i < |bars| ==> low <= bars[i].close <= high
    ensures low <= Ema(bars, period).value <= high
  {
    hide EmaNext;
    var n := |bars| - 1;
    if n > 0 {
      EmaStaysBetween(bars[..n], period, low, high);
    }
    NextStaysBetween(Ema(bars[..n], period), bars[n].close, period, low, high);
  }

  lemma {:induction false} NextStaysBetween(prev: Option<real>, x: real, period: Period, low: real, high: real)
    requires low <= x <= high && (prev.Some? ==> low <= prev.value <= high)
    ensures low <= EmaNext(prev, x, period) <= high
  {
    var n := (period + 1) as real;
    var k := 2.0 / n;
    assert n >= 2.0;
    FractionOf(2.0, n);
    if prev.Some? {
      Blend(k, x, prev.value, low, high);
    }
  }

  lemma FractionOf(x: real, n: real)
    requires 0.0 < x <= n
    ensures 0.0 < x / n <= 1.0
  {
  }

  lemma Part(k: real, gap: real)
    requires 0.0 <= k <= 1.0 && gap >= 0.0
    ensures 0.0 <= k * gap <= gap
  {
  }

  lemma PartOfGap(k: real, gap: real) returns (g: real)
    requires 0.0 <= k <= 1.0
    ensures g == k * gap
    ensures if gap >= 0.0 then 0.0 <= g <= gap else gap <= g <= 0.0
  {
    g := k * gap;
    if gap >= 0.0 {
      Part(k, gap);
    } else {
      Part(k, -gap);
      assert k * -gap == -g;
    }
  }

  /** A weighted mean lies between its parts. */
  lemma Blend(k: real, x: real, y: real, low: real, high: real)
    requires 0.0 <= k <= 1.0 && low <= x <= high && low <= y <= high
    ensures low <= k * x + (1.0 - k) * y <= high
  {
    var g := PartOfGap(k, x - y);
    assert low <= y + g <= high;
    assert k * x + (1.0 - k) * y == y + g;
  }

  lemma ScaledUp(k: real, x: real, y: real)
    requires k >= 0.0 && x <= y
    ensures k * x <= k * y
  {
  }

  ghost predicate RangesWithin(bars: seq<Candle>, low: real, high: real) {
    forall i :: 0 <= i < |bars| ==> low <= Ranges(bars)[i] <= high
  }

  /** An ATR never leaves the span of the true ranges it has seen. */
  lemma {:induction false} AtrStaysBetween(bars: seq<Candle>, period: Period, low: real, high: real)
    requires |bars| >= period && RangesWithin(bars, low, high)
    ensures low <= Atr(bars, period).value <= high
  {
    hide Wilder, TrueRange, Sum;
    if |bars| == period {
      MeanStaysBetween(Ranges(bars), low, high);
    } else {
      var n := |bars| - 1;
      assert Ranges(bars)[..n] == Ranges(bars[..n]);
      forall i | 0 <= i < n ensures low <= Ranges(bars[..n])[i] <= high {
        assert Ranges(bars[..n])[i] == Ranges(bars)[i];
      }
      AtrStaysBetween(bars[..n], period, low, high);
      WilderStaysBetween(Atr(bars[..n], period).value, Ranges(bars)[n], period, low, high);
    }
  }

  lemma {:induction false} WilderStaysBetween(atr: real, tr: real, period: Period, low: real, high: real)
    requires low <= atr <= high && low <= tr <= high
    ensures low <= Wilder(atr, tr, period) <= high
  {
    var n := period as real;
    assert (period - 1) as real == n - 1.0;
    ScaledUp(n - 1.0, low, atr); ScaledUp(n - 1.0, atr, high);
    assert (n - 1.0) * atr == atr * (n - 1.0);
    assert (n - 1.0) * low + low == n * low && (n - 1.0) * high + high == n * high;
    QuotientBetween(atr * (n - 1.0) + tr, n, low, high);
  }

  lemma QuotientBetween(x: real, n: real, low: real, high: real)
    requires n > 0.0 && n * low <= x <= n * high
    ensures low <= x / n <= high
  {
    var q := x / n;
    assert n * q == x;
    if q < low {
      StrictlyScaled(n, q, low);
    } else if q > high {
      StrictlyScaled(n, high, q);
    }
  }

  lemma StrictlyScaled(n: real, x: real, y: real)
    requires n > 0.0 && x < y
    ensures n * x < n * y
  {
  }

  lemma {:induction false} MeanStaysBetween(xs: seq<real>, low: real, high: real)
    requires xs != [] && forall i :: 0 <= i < |xs| ==> low <= xs[i] <= high
    ensures low <= Sum(xs, Same) / |xs| as real <= high
  {
    SumStaysBetween(xs, low, high);
    QuotientBetween(Sum(xs, Same), |xs| as real, low, high);
  }

  lemma {:induction false} SumStaysBetween(xs: seq<real>, low: real, high: real)
    requires forall i :: 0 <= i < |xs| ==> low <= xs[i] <= high
    ensures |xs| as real * low <= Sum(xs, Same) <= |xs| as real * high
  {
    if xs == [] {
      assert 0.0 * low == 0.0 && 0.0 * high == 0.0;
    } else {
      var n := |xs| - 1;
      SumStaysBetween(xs[..n], low, high);
      OneMoreTimes(n, low);
      OneMoreTimes(n, high);
    }
  }

  lemma OneMoreTimes(n: nat, x: real)
    ensures (n + 1) as real * x == n as real * x + x
  {
    assert (n + 1) as real == n as real + 1.0;
  }
}
