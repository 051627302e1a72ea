/** Folding child bars into wider buckets, and folding folds. */
module FoldHours {
  import opened Basics
  import opened Sorting

  datatype FoldBar = FoldBar(ts: int, open: real, high: real, low: real, close: real, volume: real)

  /** What a stretch of time traded: nothing, or five numbers. */
  datatype Traded = Nothing | Traded(open: real, high: real, low: real, close: real, volume: real)

  /** One stretch after another. */
  function Then(x: Traded, y: Traded): Traded {
    if x == Nothing then y
    else if y == Nothing then x
    else Traded(x.open, Max(x.high, y.high), Min(x.low, y.low), y.close, x.volume + y.volume)
  }

  lemma ThenAssociates(x: Traded, y: Traded, z: Traded)
    ensures Then(Then(x, y), z) == Then(x, Then(y, z))
  {
  }

  function TradedOf(bar: FoldBar): Traded {
    Traded(bar.open, bar.high, bar.low, bar.close, bar.volume)
  }

  function BarOf(ts: int, t: Traded): FoldBar
    requires t.Traded?
  {
    FoldBar(ts, t.open, t.high, t.low, t.close, t.volume)
  }

  type Span = n: int | 0 < n witness 900

  /** Later bars of one timestamp replace earlier ones. */
  function ByTs(bars: seq<FoldBar>): map<int, FoldBar> {
    if bars == [] then map[] else ByTs(bars[..|bars| - 1])[bars[|bars| - 1].ts := bars[|bars| - 1]]
  }

  function At(byTs: map<int, FoldBar>, ts: int): Traded {
    if ts in byTs then TradedOf(byTs[ts]) else Nothing
  }

  /** What [ts, end) traded, looking every `child` seconds. */
  function Bucket(byTs: map<int, FoldBar>, ts: int, end: int, child: Span): Traded
    decreases end - ts
  {
    if ts >= end then Nothing else Then(At(byTs, ts), Bucket(byTs, ts + child, end, child))
  }

  function FloorTo(ts: int, span: Span): int {
    ts / span * span
  }

  function Starts(bars: seq<FoldBar>, span: Span): seq<int> {
    if bars == [] then []
    else
      var rest := Starts(bars[..|bars| - 1], span);
      var start := FloorTo(bars[|bars| - 1].ts, span);
      if start in rest then rest else rest + [start]
  }

  predicate Lower(x: int, y: int) {
    x < y
  }

  function FoldAt(byTs: map<int, FoldBar>, starts: seq<int>, span: Span, child: Span): seq<FoldBar> {
    if starts == [] then []
    else
      var n := |starts| - 1;
      var t := Bucket(byTs, starts[n], starts[n] + span, child);
      FoldAt(byTs, starts[..n], span, child) + if t == Nothing then [] else [BarOf(starts[n], t)]
  }

  /** A span that is not a whole number of children folds to nothing. */
  function Fold(bars: seq<FoldBar>, span: Span, child: Span): seq<FoldBar> {
    if span % child != 0 then [] else FoldAt(ByTs(bars), Sort(Starts(bars, span), Lower), span, child)
  }

  method FoldHours(bars: seq<FoldBar>, spanSec: Span, childSec: Span) returns (out: seq<FoldBar>)
    ensures out == Fold(bars, spanSec, childSec)
  {
    hide Starts, ByTs, Bucket, Sort, FloorTo;
    if spanSec % childSec != 0 {
      return [];
    }
    var byTs, distinct := Index(bars, spanSec);
    var starts := Sort(distinct, Lower);
    out := [];
    for k := 0 to |starts|
      invariant out == FoldAt(byTs, starts[..k], spanSec, childSec)
    {
      assert starts[..k + 1][..k] == starts[..k];
      var filled := Fill(byTs, starts[k], starts[k] + spanSec, childSec);
      if filled != [] {
        var bar := Squash(starts[k], filled);
        out := out + [bar];
      }
    }
    assert starts[..|starts|] == starts;
  }

  method Index(bars: seq<FoldBar>, spanSec: Span) returns (byTs: map<int, FoldBar>, distinct: seq<int>)
    ensures byTs == ByTs(bars) && distinct == Starts(bars, spanSec)
  {
    hide FloorTo;
    byTs, distinct := map[], [];
    for k := 0 to |bars|
      invariant byTs == ByTs(bars[..k]) && distinct == Starts(bars[..k], spanSec)
    {
      assert bars[..k + 1][..k] == bars[..k];
      byTs := byTs[bars[k].ts := bars[k]];
      var start := FloorTo(bars[k].ts, spanSec);
      if start !in distinct {
        distinct := distinct + [start];
      }
    }
    assert bars[..|bars|] == bars;
  }

  /** The bars of the list, one after another. */
  function InSequence(filled: seq<FoldBar>): Traded {
    if filled == [] then Nothing else Then(InSequence(filled[..|filled| - 1]), TradedOf(filled[|filled| - 1]))
  }

  method Fill(byTs: map<int, FoldBar>, start: int, end: int, child: Span) returns (filled: seq<FoldBar>)
    ensures InSequence(filled) == Bucket(byTs, start, end, child)
  {
    filled := [];
    var ts := start;
    while ts < end
      invariant Then(InSequence(filled), Bucket(byTs, ts, end, child)) == Bucket(byTs, start, end, child)
      decreases end - ts
    {
      ThenAssociates(InSequence(filled), At(byTs, ts), Bucket(byTs, ts + child, end, child));
      if ts in byTs {
        filled := filled + [byTs[ts]];
        assert filled[..|filled| - 1] + [byTs[ts]] == filled;
      }
      ts := ts + child;
    }
  }

  /** First open, highest high, lowest low, last close, and the volumes added up. */
  method Squash(start: int, filled: seq<FoldBar>) returns (bar: FoldBar)
    requires filled != []
    ensures InSequence(filled).Traded? && bar == BarOf(start, InSequence(filled))
  {
    var high, low, volume := filled[0].high, filled[0].low, filled[0].volume;
    assert filled[..1][..0] == [];
    for k := 1 to |filled|
      invariant InSequence(filled[..k]) == Traded(filled[0].open, high, low, filled[k - 1].close, volume)
    {
      assert filled[..k + 1][..k] == filled[..k];
      high, low, volume := Max(high, filled[k].high), Min(low, filled[k].low), volume + filled[k].volume;
    }
    assert filled[..|filled|] == filled;
    bar := FoldBar(start, filled[0].open, high, low, filled[|filled| - 1].close, volume);
  }

  // ----- what a fold is

  ghost predicate Ascending(bars: seq<FoldBar>) {
    forall i, j :: 0 <= i < j < |bars| ==> bars[i].ts < bars[j].ts
  }

  /** Exactly the buckets that traded, in order. */
  ghost predicate IsFold(out: seq<FoldBar>, byTs: map<int, FoldBar>, span: Span, child: Span) {
    && Ascending(out)
    && (forall bar :: bar in out ==> bar.ts % span == 0 && Bucket(byTs, bar.ts, bar.ts + span, child) == TradedOf(bar))
    && (forall start :: start % span == 0 && Bucket(byTs, start, start + span, child) != Nothing ==>
          exists bar :: bar in out && bar.ts == start)
  }

  lemma {:induction false} FoldIsUnique(out: seq<FoldBar>, other: seq<FoldBar>, byTs: map<int, FoldBar>, span: Span,
      child: Span)
    requires IsFold(out, byTs, span, child) && IsFold(other, byTs, span, child)
    ensures out == other
  {
    forall bar | bar in out ensures bar in other {
      SameBar(out, other, byTs, span, child, bar);
    }
    forall bar | bar in other ensures bar in out {
      SameBar(other, out, byTs, span, child, bar);
    }
    AscendingUnique(out, other);
  }

  lemma SameBar(out: seq<FoldBar>, other: seq<FoldBar>, byTs: map<int, FoldBar>, span: Span, child: Span, bar: FoldBar)
    requires IsFold(out, byTs, span, child) && IsFold(other, byTs, span, child) && bar in out
    ensures bar in other
  {
    var twin :| twin in other && twin.ts == bar.ts;
    assert TradedOf(twin) == TradedOf(bar);
  }

  lemma NoMembers(bars: seq<FoldBar>)
    ensures bars != [] ==> exists bar :: bar in bars
  {
    if bars != [] {
      assert bars[0] in bars;
    }
  }

  lemma {:induction false} AscendingUnique(out: seq<FoldBar>, other: seq<FoldBar>)
    requires Ascending(out) && Ascending(other) && forall bar :: bar in out <==> bar in other
    ensures out == other
  {
    if out == [] {
      NoMembers(other);
    } else {
      assert out[0] in out && out[0] in other;
      assert other[0] in other && other[0] in out;
      var i :| 0 <= i < |other| && other[i] == out[0];
      var j :| 0 <= j < |out| && out[j] == other[0];
      assert out[0] == other[0];
      TailMembers(out);
      TailMembers(other);
      AscendingUnique(out[1..], other[1..]);
      assert out == [out[0]] + out[1..] && other == [other[0]] + other[1..];
    }
  }

  lemma TailMembers(bars: seq<FoldBar>)
    requires Ascending(bars) && bars != []
    ensures Ascending(bars[1..]) && forall bar :: bar in bars[1..] <==> bar in bars && bar != bars[0]
  {
    assert bars == [bars[0]] + bars[1..];
  }

  // ----- the code's fold is that fold

  lemma {:induction false} StartListed(bars: seq<FoldBar>, span: Span, ts: int)
    requires ts in ByTs(bars)
    ensures FloorTo(ts, span) in Starts(bars, span)
  {
    var n := |bars| - 1;
    if ts != bars[n].ts {
      StartListed(bars[..n], span, ts);
    }
  }

  ghost predicate Rising(starts: seq<int>) {
    forall i, j :: 0 <= i < j < |starts| ==> starts[i] < starts[j]
  }

  lemma {:induction false} StartsOnGrid(bars: seq<FoldBar>, span: Span)
    ensures forall start :: start in Starts(bars, span) ==> start % span == 0
    ensures forall i, j :: 0 <= i < j < |Starts(bars, span)| ==> Starts(bars, span)[i] != Starts(bars, span)[j]
  {
    if bars != [] {
      StartsOnGrid(bars[..|bars| - 1], span);
      DivUnique(FloorTo(bars[|bars| - 1].ts, span), span, bars[|bars| - 1].ts / span, 0);
    }
  }

  lemma {:induction false} SortedStartsRise(starts: seq<int>)
    requires forall i, j :: 0 <= i < j < |starts| ==> starts[i] != starts[j]
    ensures Rising(Sort(starts, Lower)) && forall start :: start in Sort(starts, Lower) <==> start in starts
  {
    SortSorted(starts, Lower);
    var sorted := Sort(starts, Lower);
    forall start ensures start in sorted <==> start in starts {
      assert start in multiset(sorted) <==> start in multiset(starts);
    }
    forall i, j | 0 <= i < j < |sorted| ensures sorted[i] < sorted[j] {
      assert !Lower(sorted[j], sorted[i]);
      if sorted[i] == sorted[j] {
        TwiceInMultiset(sorted, i, j);
        OnceInMultiset(starts, sorted[i]);
        assert false;
      }
    }
  }

  lemma TwiceInMultiset(s: seq<int>, i: nat, j: nat)
    requires i < j < |s| && s[i] == s[j]
    ensures multiset(s)[s[i]] >= 2
  {
    assert s == s[..j] + ([s[j]] + s[j + 1..]);
    assert s[..j][i] == s[i] && s[i] in multiset(s[..j]);
  }

  lemma {:induction false} OnceInMultiset(s: seq<int>, x: int)
    requires forall i, j :: 0 <= i < j < |s| ==> s[i] != s[j]
    ensures multiset(s)[x] <= 1
  {
    if s != [] {
      var n := |s| - 1;
      OnceInMultiset(s[..n], x);
      assert s == s[..n] + [s[n]];
      assert s[n] !in s[..n];
      assert s[n] !in multiset(s[..n]);
    }
  }

  /** A bucket that traded holds a bar on its child grid. */
  lemma {:induction false} BucketHolds(byTs: map<int, FoldBar>, ts: int, end: int, child: Span)
    ensures Bucket(byTs, ts, end, child) != Nothing ==> exists t :: ts <= t < end && t in byTs
    decreases end - ts
  {
    if ts < end {
      BucketHolds(byTs, ts + child, end, child);
      assert At(byTs, ts) != Nothing ==> ts in byTs;
    }
  }

  ghost predicate Listed(out: seq<FoldBar>, start: int) {
    exists bar :: bar in out && bar.ts == start
  }

  ghost predicate Right(bar: FoldBar, starts: seq<int>, byTs: map<int, FoldBar>, span: Span, child: Span) {
    bar.ts in starts && Bucket(byTs, bar.ts, bar.ts + span, child) == TradedOf(bar)
  }

  ghost predicate ListedIfTraded(start: int, out: seq<FoldBar>, byTs: map<int, FoldBar>, span: Span, child: Span) {
    Bucket(byTs, start, start + span, child) != Nothing ==> Listed(out, start)
  }

  lemma {:induction false} FoldAtMembers(byTs: map<int, FoldBar>, starts: seq<int>, span: Span, child: Span)
    requires Rising(starts)
    ensures Ascending(FoldAt(byTs, starts, span, child))
    ensures forall bar :: bar in FoldAt(byTs, starts, span, child) ==> Right(bar, starts, byTs, span, child)
    ensures forall start ::
            start in starts ==> ListedIfTraded(start, FoldAt(byTs, starts, span, child), byTs, span, child)
  {
    hide Bucket, Right, ListedIfTraded, Ascending;
    if starts == [] {
      NothingFolded();
    } else {
      var n := |starts| - 1;
      FoldAtMembers(byTs, starts[..n], span, child);
      FoldAtStep(byTs, starts, FoldAt(byTs, starts[..n], span, child), span, child);
    }
  }

  lemma NothingFolded()
    ensures Ascending([])
  {
  }

  lemma {:induction false} FoldAtStep(byTs: map<int, FoldBar>, starts: seq<int>, before: seq<FoldBar>, span: Span,
      child: Span)
    requires starts != [] && Rising(starts) && Ascending(before)
    requires forall bar :: bar in before ==> Right(bar, starts[..|starts| - 1], byTs, span, child)
    requires forall start :: start in starts[..|starts| - 1] ==> ListedIfTraded(start, before, byTs, span, child)
    ensures var start := starts[|starts| - 1];
            var t := Bucket(byTs, start, start + span, child);
            var out := before + if t == Nothing then [] else [BarOf(start, t)];
            && Ascending(out)
            && (forall bar :: bar in out ==> Right(bar, starts, byTs, span, child))
            && (forall s :: s in starts ==> ListedIfTraded(s, out, byTs, span, child))
  {
    hide Bucket;
    var start := starts[|starts| - 1];
    var t := Bucket(byTs, start, start + span, child);
    var out := before + if t == Nothing then [] else [BarOf(start, t)];
    forall i | 0 <= i < |before| ensures before[i].ts < start {
      assert before[i] in before && Right(before[i], starts[..|starts| - 1], byTs, span, child);
    }
    forall bar | bar in out ensures Right(bar, starts, byTs, span, child) {
      assert bar in before ==> Right(bar, starts[..|starts| - 1], byTs, span, child);
    }
    forall s | s in starts ensures ListedIfTraded(s, out, byTs, span, child) {
      if s in starts[..|starts| - 1] {
        assert ListedIfTraded(s, before, byTs, span, child);
        assert forall bar :: bar in before ==> bar in out;
      } else {
        assert t != Nothing ==> out[|before|] in out;
      }
    }
  }

  /** The bars the code returns are exactly the buckets that traded, in order. */
  lemma {:induction false} FoldIsFold(bars: seq<FoldBar>, span: Span, child: Span)
    requires span % child == 0
    ensures IsFold(Fold(bars, span, child), ByTs(bars), span, child)
  {
    hide FoldAt, Bucket, ByTs, Starts, Sort;
    var byTs, starts := ByTs(bars), Sort(Starts(bars, span), Lower);
    StartsOnGrid(bars, span);
    SortedStartsRise(Starts(bars, span));
    FoldAtMembers(byTs, starts, span, child);
    var out := Fold(bars, span, child);
    forall bar | bar in out ensures bar.ts % span == 0 && Bucket(byTs, bar.ts, bar.ts + span, child) == TradedOf(bar) {
      assert Right(bar, starts, byTs, span, child);
    }
    forall start | start % span == 0 && Bucket(byTs, start, start + span, child) != Nothing
      ensures exists bar :: bar in out && bar.ts == start
    {
      BucketHolds(byTs, start, start + span, child);
      var t :| start <= t < start + span && t in byTs;
      StartListed(bars, span, t);
      FloorInside(start, t, span);
      assert ListedIfTraded(start, out, byTs, span, child);
      assert Listed(out, start);
    }
  }

  lemma FloorInside(start: int, t: int, span: Span)
    requires start % span == 0 && start <= t < start + span
    ensures FloorTo(t, span) == start
  {
    DivUnique(t, span, start / span, t - start);
  }

  // ----- folding a fold

  lemma {:induction false} BucketSplit(byTs: map<int, FoldBar>, a: int, b: int, c: int, child: Span)
    requires a <= b <= c && (b - a) % child == 0
    ensures Bucket(byTs, a, c, child) == Then(Bucket(byTs, a, b, child), Bucket(byTs, b, c, child))
    decreases b - a
  {
    if a < b {
      StepFits(b - a, child);
      BucketSplit(byTs, a + child, b, c, child);
      ThenAssociates(At(byTs, a), Bucket(byTs, a + child, b, child), Bucket(byTs, b, c, child));
    }
  }

  /** A positive whole number of steps leaves room for one, and a whole number after it. */
  lemma StepFits(length: int, child: Span)
    requires length > 0 && length % child == 0
    ensures child <= length && (length - child) % child == 0
  {
    DivShift(length, child, -1);
    assert length == child * (length / child);
    assert length / child >= 1;
  }

  lemma {:induction false} ByTsOfAscending(bars: seq<FoldBar>)
    requires Ascending(bars)
    ensures forall t :: t in ByTs(bars) <==> Listed(bars, t)
    ensures forall bar :: bar in bars ==> bar.ts in ByTs(bars) && ByTs(bars)[bar.ts] == bar
  {
    if bars != [] {
      var n := |bars| - 1;
      ByTsOfAscending(bars[..n]);
      assert forall bar :: bar in bars <==> bar in bars[..n] || bar == bars[n];
      forall t ensures t in ByTs(bars) <==> Listed(bars, t) {
        assert Listed(bars[..n], t) ==> Listed(bars, t);
        if Listed(bars, t) && t != bars[n].ts {
          var bar :| bar in bars && bar.ts == t;
          assert Listed(bars[..n], t);
        }
      }
    }
  }

  /** Looked up by timestamp, a fold answers what its bucket traded. */
  lemma {:induction false} FoldAnswers(out: seq<FoldBar>, byTs: map<int, FoldBar>, span: Span, child: Span, start: int)
    requires IsFold(out, byTs, span, child) && start % span == 0
    ensures At(ByTs(out), start) == Bucket(byTs, start, start + span, child)
  {
    hide ByTs, Bucket;
    ByTsOfAscending(out);
    assert Bucket(byTs, start, start + span, child) != Nothing ==> Listed(out, start);
    if Listed(out, start) {
      var bar :| bar in out && bar.ts == start;
      assert ByTs(out)[start] == bar;
    }
  }

  /** A wide bucket of folded bars trades what the same bucket of the raw bars trades. */
  lemma {:induction false} BucketOfBuckets(out: seq<FoldBar>, byTs: map<int, FoldBar>, mid: Span, child: Span,
      start: int, end: int)
    requires IsFold(out, byTs, mid, child) && mid % child == 0
    requires start <= end && start % mid == 0 && (end - start) % mid == 0
    ensures Bucket(ByTs(out), start, end, mid) == Bucket(byTs, start, end, child)
    decreases end - start
  {
    hide IsFold;
    if start < end {
      StepFits(end - start, mid);
      DivShift(start, mid, 1);
      FoldAnswers(out, byTs, mid, child, start);
      BucketOfBuckets(out, byTs, mid, child, start + mid, end);
      BucketSplit(byTs, start, start + mid, end, child);
    }
  }

  /** Folding 15m to 1h to 4h is folding 15m to 4h, bar for bar, whatever the list. */
  lemma {:induction false} FoldOfFold(bars: seq<FoldBar>, span: Span, mid: Span, child: Span)
    requires span % mid == 0 && mid % child == 0
    ensures Fold(Fold(bars, mid, child), span, mid) == Fold(bars, span, child)
  {
    hide Fold, Bucket, ByTs, IsFold;
    var inner := Fold(bars, mid, child);
    var byTs := ByTs(bars);
    FoldIsFold(bars, mid, child);
    FoldIsFold(inner, span, mid);
    MultipleOfMultiple(span, mid, child);
    FoldIsFold(bars, span, child);
    forall start | start % span == 0
      ensures Bucket(ByTs(inner), start, start + span, mid) == Bucket(byTs, start, start + span, child)
    {
      MultipleOfMultiple(start, span, mid);
      BucketOfBuckets(inner, byTs, mid, child, start, start + span);
    }
    SameBucketsSameFold(Fold(inner, span, mid), ByTs(inner), mid, byTs, child, span);
    FoldIsUnique(Fold(inner, span, mid), Fold(bars, span, child), byTs, span, child);
  }

  lemma SameBucketsSameFold(out: seq<FoldBar>, left: map<int, FoldBar>, mid: Span, right: map<int, FoldBar>,
      child: Span, span: Span)
    requires IsFold(out, left, span, mid)
    requires forall start ::
            start % span == 0 ==> Bucket(left, start, start + span, mid) == Bucket(right, start, start + span, child)
    ensures IsFold(out, right, span, child)
  {
    hide Bucket;
  }

  lemma MultipleOfMultiple(x: int, y: Span, z: Span)
    requires x % y == 0 && y % z == 0
    ensures x % z == 0
  {
    assert x == y * (x / y) && y == z * (y / z);
    assert x == z * ((y / z) * (x / y));
    DivUnique(x, z, (y / z) * (x / y), 0);
  }

  // ----- what a bucket's numbers are

  function VolumeOf(bar: FoldBar): real {
    bar.volume
  }

  /** First open, last close, the greatest high, the least low, and the volumes added up. */
  lemma {:induction false} SequenceMeans(filled: seq<FoldBar>)
    requires filled != []
    ensures InSequence(filled).Traded?
    ensures InSequence(filled).open == filled[0].open && InSequence(filled).close == filled[|filled| - 1].close
    ensures forall bar :: bar in filled ==> InSequence(filled).low <= bar.low && bar.high <= InSequence(filled).high
    ensures exists bar :: bar in filled && bar.high == InSequence(filled).high
    ensures exists bar :: bar in filled && bar.low == InSequence(filled).low
    ensures InSequence(filled).volume == Sum(filled, VolumeOf)
  {
    var n := |filled| - 1;
    var before, last := filled[..n], filled[n];
    assert last in filled && forall bar :: bar in filled <==> bar in before || bar == last;
    if n > 0 {
      SequenceMeans(before);
      var top :| top in before && top.high == InSequence(before).high;
      var bottom :| bottom in before && bottom.low == InSequence(before).low;
      assert top in filled && bottom in filled;
    } else {
      assert before == [];
    }
  }
}
