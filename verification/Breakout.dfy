/** Candles grouped into completed buckets: all at once, and one candle at a time. */
module Breakout {
  import opened Basics
  import opened Sorting
  import F = FoldHours

  /** Timestamps are in milliseconds here. */
  type Candle = F.FoldBar

  function Closing(candles: seq<Candle>): seq<Candle> {
    if candles == [] then []
    else Closing(candles[..|candles| - 1]) + if candles[|candles| - 1].close > 0.0 then [candles[|candles| - 1]] else []
  }

  predicate Earlier(x: Candle, y: Candle) {
    x.ts < y.ts
  }

  /** What the candles of one bucket trade, in the order given. */
  function InBucket(ordered: seq<Candle>, key: int, span: F.Span): F.Traded {
    if ordered == [] then F.Nothing
    else
      var n := |ordered| - 1;
      var before := InBucket(ordered[..n], key, span);
      if F.FloorTo(ordered[n].ts, span) == key then F.Then(before, F.TradedOf(ordered[n])) else before
  }

  lemma {:induction false} InBucketTrades(ordered: seq<Candle>, key: int, span: F.Span)
    ensures InBucket(ordered, key, span).Traded? <==> key in F.Starts(ordered, span)
  {
    if ordered != [] {
      InBucketTrades(ordered[..|ordered| - 1], key, span);
    }
  }

  function BucketBar(ordered: seq<Candle>, key: int, span: F.Span): Candle {
    var t := InBucket(ordered, key, span);
    if t == F.Nothing then F.FoldBar(key, 0.0, 0.0, 0.0, 0.0, 0.0) else F.BarOf(key, t)
  }

  function Buckets(ordered: seq<Candle>, keys: seq<int>, span: F.Span): (r: seq<Candle>)
    ensures |r| == |keys|
  {
    if keys == [] then [] else Buckets(ordered, keys[..|keys| - 1], span) + [BucketBar(ordered, keys[|keys| - 1], span)]
  }

  function SortedKeys(ordered: seq<Candle>, span: F.Span): seq<int> {
    Sort(F.Starts(ordered, span), F.Lower)
  }

  /** One bar per bucket that traded, in time order, without the last. */
  function Aggregated(candles: seq<Candle>, span: F.Span): seq<Candle> {
    var ordered := Sort(Closing(candles), Earlier);
    var keys := SortedKeys(ordered, span);
    if keys == [] then [] else Buckets(ordered, keys[..|keys| - 1], span)
  }

  method Aggregate(candles: seq<Candle>, bucketSec: F.Span) returns (bars: seq<Candle>)
    ensures bars == Aggregated(candles, bucketSec * 1000)
  {
    hide Sort, F.FloorTo, BucketBar;
    var span: F.Span := bucketSec * 1000;
    var ordered := Sort(Closing(candles), Earlier);
    var groups, keys := Group(ordered, span);
    ghost var distinct := keys;
    keys := Sort(keys, F.Lower);
    if |keys| == 0 {
      return [];
    }
    SameMembers(distinct);
    ghost var sorted := keys;
    keys := keys[..|keys| - 1];
    bars := [];
    for i := 0 to |keys|
      invariant bars == Buckets(ordered, keys[..i], span)
    {
      assert keys[..i + 1][..i] == keys[..i];
      assert keys[i] == sorted[i] && sorted[i] in sorted;
      bars := bars + [groups[keys[i]]];
    }
    assert keys[..|keys|] == keys;
  }

  lemma SameMembers(keys: seq<int>)
    ensures forall key :: key in Sort(keys, F.Lower) <==> key in keys
  {
    var sorted := Sort(keys, F.Lower);
    forall key ensures key in sorted <==> key in keys {
      assert key in multiset(sorted) <==> key in multiset(keys);
    }
  }

  /** The map of buckets, and its keys in order of insertion. */
  method Group(ordered: seq<Candle>, span: F.Span) returns (groups: map<int, Candle>, keys: seq<int>)
    ensures keys == F.Starts(ordered, span)
    ensures forall key :: key in keys ==> key in groups && groups[key] == BucketBar(ordered, key, span)
  {
    hide F.FloorTo;
    groups, keys := map[], [];
    for k := 0 to |ordered|
      invariant keys == F.Starts(ordered[..k], span)
      invariant forall key :: key in groups <==> key in keys
      invariant forall key :: key in keys ==> groups[key] == BucketBar(ordered[..k], key, span)
    {
      var bar := ordered[k];
      assert ordered[..k + 1][..k] == ordered[..k];
      var key := F.FloorTo(bar.ts, span);
      InBucketTrades(ordered[..k], key, span);
      if key !in groups {
        groups := groups[key := F.FoldBar(key, bar.open, bar.high, bar.low, bar.close, bar.volume)];
        keys := keys + [key];
      } else {
        var cur := groups[key];
        groups := groups[key :=
            F.FoldBar(key, cur.open, Max(cur.high, bar.high), Min(cur.low, bar.low), bar.close,
                cur.volume + bar.volume)];
      }
    }
    assert ordered[..|ordered|] == ordered;
  }

  // ----- one candle at a time

  /** The bucket being built, last, after the completed ones. */
  function Grown(ordered: seq<Candle>, span: F.Span): seq<Candle> {
    if ordered == [] then [] else Grow(Grown(ordered[..|ordered| - 1], span), ordered[|ordered| - 1], span)
  }

  function Grow(bars: seq<Candle>, bar: Candle, span: F.Span): seq<Candle> {
    var id := F.FloorTo(bar.ts, span);
    var n := |bars| - 1;
    if bars != [] && bars[n].ts == id then
      bars[..n] + [F.BarOf(id, F.Then(F.TradedOf(bars[n]), F.TradedOf(bar)))]
    else bars + [F.BarOf(id, F.TradedOf(bar))]
  }

  ghost predicate InTime(ordered: seq<Candle>) {
    forall i, j :: 0 <= i < j < |ordered| ==> ordered[i].ts <= ordered[j].ts
  }

  lemma ProductOrder(x: int, y: int, n: F.Span)
    requires x <= y
    ensures x * n <= y * n
  {
  }

  lemma FloorMonotone(a: int, b: int, span: F.Span)
    requires a <= b
    ensures F.FloorTo(a, span) <= F.FloorTo(b, span)
  {
    var p, q := a / span, b / span;
    assert a == span * p + a % span && b == span * q + b % span;
    if p > q {
      ProductOrder(q + 1, p, span);
    } else {
      ProductOrder(p, q, span);
    }
  }

  /** On ordered candles bucket starts appear in rising order, the newest candle's last. */
  lemma {:induction false} StartsRise(ordered: seq<Candle>, span: F.Span)
    requires InTime(ordered)
    ensures F.Rising(F.Starts(ordered, span))
    ensures ordered != []
       ==> F.Starts(ordered, span) != []
           && F.Starts(ordered, span)[|F.Starts(ordered, span)| - 1] == F.FloorTo(ordered[|ordered| - 1].ts, span)
  {
    hide F.FloorTo;
    var n := |ordered| - 1;
    if n > 0 {
      StartsRise(ordered[..n], span);
      FloorMonotone(ordered[n - 1].ts, ordered[n].ts, span);
    }
  }

  lemma {:induction false} BucketsUnchanged(ordered: seq<Candle>, bar: Candle, keys: seq<int>, span: F.Span)
    requires F.FloorTo(bar.ts, span) !in keys
    ensures Buckets(ordered + [bar], keys, span) == Buckets(ordered, keys, span)
  {
    if keys != [] {
      BucketsUnchanged(ordered, bar, keys[..|keys| - 1], span);
      assert (ordered + [bar])[..|ordered|] == ordered;
      assert keys[|keys| - 1] in keys;
    }
  }

  /** Growing one candle at a time makes the buckets the grouping makes. */
  lemma {:induction false} GrownAreBuckets(ordered: seq<Candle>, span: F.Span)
    requires InTime(ordered)
    ensures Grown(ordered, span) == Buckets(ordered, F.Starts(ordered, span), span)
  {
    hide F.FloorTo, F.Rising, InTime;
    if ordered != [] {
      var n := |ordered| - 1;
      InTimePrefix(ordered, n);
      GrownAreBuckets(ordered[..n], span);
      assert ordered[..n] + [ordered[n]] == ordered;
      GrowIsBuckets(ordered[..n], ordered[n], span);
    }
  }

  lemma InTimePrefix(ordered: seq<Candle>, k: nat)
    requires InTime(ordered) && k <= |ordered|
    ensures InTime(ordered[..k])
  {
  }

  lemma {:induction false} GrowIsBuckets(before: seq<Candle>, bar: Candle, span: F.Span)
    requires InTime(before + [bar])
    ensures Grow(Buckets(before, F.Starts(before, span), span), bar, span)
            == Buckets(before + [bar], F.Starts(before + [bar], span), span)
  {
    hide F.FloorTo, InTime, Buckets;
    var ordered, keys, id := before + [bar], F.Starts(before, span), F.FloorTo(bar.ts, span);
    assert ordered[..|before|] == before;
    InTimePrefix(ordered, |before|);
    StartsRise(before, span);
    StartsRise(ordered, span);
    if id in keys {
      assert keys[|keys| - 1] == id;
      LastGrows(before, bar, keys, span);
    } else {
      NewBucket(before, bar, keys, span);
    }
  }

  lemma {:induction false} LastGrows(before: seq<Candle>, bar: Candle, keys: seq<int>, span: F.Span)
    requires F.Rising(keys) && keys == F.Starts(before, span) && keys != []
            && keys[|keys| - 1] == F.FloorTo(bar.ts, span)
    ensures Grow(Buckets(before, keys, span), bar, span) == Buckets(before + [bar], keys, span)
  {
    hide F.FloorTo, F.Starts;
    var n, id := |keys| - 1, F.FloorTo(bar.ts, span);
    assert (before + [bar])[..|before|] == before;
    InBucketTrades(before, id, span);
    assert keys[n] in keys && id !in keys[..n];
    BucketsUnchanged(before, bar, keys[..n], span);
  }

  lemma {:induction false} NewBucket(before: seq<Candle>, bar: Candle, keys: seq<int>, span: F.Span)
    requires keys == F.Starts(before, span) && F.FloorTo(bar.ts, span) !in keys
    ensures Grow(Buckets(before, keys, span), bar, span)
            == Buckets(before + [bar], keys + [F.FloorTo(bar.ts, span)], span)
  {
    hide F.FloorTo, F.Starts;
    var id := F.FloorTo(bar.ts, span);
    assert (before + [bar])[..|before|] == before && (keys + [id])[..|keys|] == keys;
    InBucketTrades(before, id, span);
    BucketsUnchanged(before, bar, keys, span);
    assert keys != [] ==> keys[|keys| - 1] in keys;
  }

  // ----- sorting what is already in order

  lemma {:induction false} SortKeepsSorted<T(!new)>(s: seq<T>, before: (T, T) -> bool)
    requires Sorted(s, before)
    ensures Sort(s, before) == s
  {
    if s != [] {
      SortKeepsSorted(s[..|s| - 1], before);
    }
  }

  ghost predicate AllClose(candles: seq<Candle>) {
    forall i :: 0 <= i < |candles| ==> candles[i].close > 0.0
  }

  lemma {:induction false} ClosingKeeps(candles: seq<Candle>)
    requires AllClose(candles)
    ensures Closing(candles) == candles
  {
    if candles != [] {
      var n := |candles| - 1;
      ClosingKeeps(candles[..n]);
      assert candles[..n] + [candles[n]] == candles;
    }
  }

  /** On candles already in order, all but the last bucket grown is what aggregating gives. */
  lemma {:induction false} CompletedIsAggregated(ordered: seq<Candle>, span: F.Span)
    requires InTime(ordered) && AllClose(ordered)
    ensures Aggregated(ordered, span) == if ordered == [] then []
            else Grown(ordered, span)[..|Grown(ordered, span)| - 1]
  {
    hide F.FloorTo, Grown, BucketBar, Closing, Sort;
    ClosingKeeps(ordered);
    SortKeepsSorted(ordered, Earlier);
    StartsRise(ordered, span);
    var keys := F.Starts(ordered, span);
    SortKeepsSorted(keys, F.Lower);
    GrownAreBuckets(ordered, span);
    if ordered == [] {
      NoStarts(span);
    }
  }

  lemma NoStarts(span: F.Span)
    ensures F.Starts([], span) == []
  {
  }
}
