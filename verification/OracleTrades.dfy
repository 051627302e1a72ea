/**
 * The hindsight oracle: the best sequence of long round trips on a price series, by dynamic
 * programming over prefixes, read back through the predecessor table.
 */
module OracleTrades {
  import opened Basics

  datatype RoundTrip = RoundTrip(buy: nat, sell: nat)

  datatype Market = Market(prices: seq<real>, notional: real, makerFeeBps: real, takerFeeBps: real)

  function FeeRate(bps: real): real {
    Max(0.0, bps) / 10_000.0
  }

  function RoundTripPnl(entry: real, exit: real, notional: real, makerFeeBps: real, takerFeeBps: real): real {
    if entry <= 0.0 || exit <= 0.0 || notional <= 0.0 then 0.0
    else
      var units := notional / entry;
      var cost := notional * (1.0 + FeeRate(makerFeeBps));
      var proceeds := units * exit * (1.0 - FeeRate(takerFeeBps));
      proceeds - cost
  }

  /** A round trip pays exactly when the exit less its fee is above the entry plus its fee. */
  lemma {:induction false} PaysExactly(entry: real, exit: real, notional: real, makerFeeBps: real, takerFeeBps: real)
    requires entry > 0.0 && exit > 0.0 && notional > 0.0
    ensures RoundTripPnl(entry, exit, notional, makerFeeBps, takerFeeBps) > 0.0
       <==> exit * (1.0 - FeeRate(takerFeeBps)) > entry * (1.0 + FeeRate(makerFeeBps))
  {
    var units, sold, bought := notional / entry, exit * (1.0 - FeeRate(takerFeeBps)), 1.0 + FeeRate(makerFeeBps);
    assert units > 0.0 && units * entry == notional;
    assert units * exit * (1.0 - FeeRate(takerFeeBps)) == units * sold;
    assert notional * bought == units * (entry * bought);
    SameSign(units, sold, entry * bought);
  }

  /** What a round trip brings: the units bought, sold less the fee, over the notional plus the fee. */
  lemma {:induction false} PnlIsExact(entry: real, exit: real, notional: real, makerFeeBps: real, takerFeeBps: real)
    ensures var pnl := RoundTripPnl(entry, exit, notional, makerFeeBps, takerFeeBps);
            var maker := if makerFeeBps > 0.0 then makerFeeBps / 10_000.0 else 0.0;
            var taker := if takerFeeBps > 0.0 then takerFeeBps / 10_000.0 else 0.0;
            if entry > 0.0 && exit > 0.0 && notional > 0.0
            then entry * pnl == notional * (exit * (1.0 - taker) - entry * (1.0 + maker))
            else pnl == 0.0
  {
    if entry > 0.0 && exit > 0.0 && notional > 0.0 {
      var units, sold, bought := notional / entry, exit * (1.0 - FeeRate(takerFeeBps)), 1.0 + FeeRate(makerFeeBps);
      QuotientTimes(notional, entry);
      Regrouped(entry, units, exit, 1.0 - FeeRate(takerFeeBps), notional);
      Factored(entry, units * exit * (1.0 - FeeRate(takerFeeBps)), notional * bought);
      Factored(notional, sold, entry * bought);
      Exchanged(entry, notional, bought);
    }
  }

  lemma Regrouped(entry: real, units: real, exit: real, kept: real, notional: real)
    requires entry * units == notional
    ensures entry * (units * exit * kept) == notional * (exit * kept)
  {
    assert units * exit * kept == units * (exit * kept);
    assert entry * (units * (exit * kept)) == entry * units * (exit * kept);
  }

  lemma Exchanged(x: real, y: real, z: real)
    ensures x * (y * z) == y * (x * z)
  {
  }

  lemma SameSign(u: real, x: real, y: real)
    requires u > 0.0
    ensures u * x - u * y > 0.0 <==> x > y
  {
    if x > y {
      ProductPositive(u, x - y);
      assert u * (x - y) == u * x - u * y;
    } else {
      ProductMonotone(x, y, u);
      assert x * u == u * x && y * u == u * y;
    }
  }

  function Gain(m: Market, t: RoundTrip): real
    requires t.buy < |m.prices| && t.sell < |m.prices|
  {
    RoundTripPnl(m.prices[t.buy], m.prices[t.sell], m.notional, m.makerFeeBps, m.takerFeeBps)
  }

  /** Round trips inside the first n prices, one after another: buy < sell < next buy. */
  ghost predicate Schedule(m: Market, trades: seq<RoundTrip>, n: nat) {
    && n <= |m.prices|
    && (forall k :: 0 <= k < |trades| ==> trades[k].buy < trades[k].sell < n)
    && (forall k :: 0 <= k < |trades| - 1 ==> trades[k].sell < trades[k + 1].buy)
  }

  ghost function Total(m: Market, trades: seq<RoundTrip>): real
    requires forall t :: t in trades ==> t.buy < |m.prices| && t.sell < |m.prices|
  {
    if trades == [] then 0.0 else Total(m, trades[..|trades| - 1]) + Gain(m, trades[|trades| - 1])
  }

  ghost predicate AllProfitable(m: Market, trades: seq<RoundTrip>)
    requires forall t :: t in trades ==> t.buy < |m.prices| && t.sell < |m.prices|
  {
    forall t :: t in trades ==> Gain(m, t) > 0.0
  }

  lemma ScheduleInRange(m: Market, trades: seq<RoundTrip>, n: nat)
    requires Schedule(m, trades, n)
    ensures forall t :: t in trades ==> t.buy < |m.prices| && t.sell < |m.prices|
  {
  }

  /** The last trade of a schedule ends inside it; the rest ends before that trade begins. */
  lemma ScheduleSplits(m: Market, trades: seq<RoundTrip>, n: nat)
    requires Schedule(m, trades, n) && trades != []
    ensures var last := trades[|trades| - 1];
            last.buy < last.sell < n && Schedule(m, trades[..|trades| - 1], last.buy)
  {
    var k := |trades| - 1;
    var rest, last := trades[..k], trades[k];
    forall j | 0 <= j < k ensures rest[j].sell < last.buy {
      SellsBefore(m, trades, n, j, k);
    }
  }

  lemma {:induction false} SellsBefore(m: Market, trades: seq<RoundTrip>, n: nat, j: nat, k: nat)
    requires Schedule(m, trades, n) && j < k < |trades|
    ensures trades[j].sell < trades[k].buy
    decreases k - j
  {
    if j + 1 < k {
      SellsBefore(m, trades, n, j + 1, k);
    }
  }

  lemma {:induction false} TotalPrepend(m: Market, t: RoundTrip, trades: seq<RoundTrip>)
    requires t.buy < |m.prices| && t.sell < |m.prices| && InRange(m, trades)
    ensures InRange(m, [t] + trades) && Total(m, [t] + trades) == Gain(m, t) + Total(m, trades)
  {
    if trades == [] {
      assert [t] + trades == [t] && [t][..0] == [];
    } else {
      var k := |trades| - 1;
      assert forall x :: x in trades[..k] ==> x in trades;
      TotalPrepend(m, t, trades[..k]);
      assert ([t] + trades)[..|trades|] == [t] + trades[..k];
    }
  }

  ghost predicate InRange(m: Market, trades: seq<RoundTrip>) {
    forall t :: t in trades ==> t.buy < |m.prices| && t.sell < |m.prices|
  }

  // ----- the table

  /** No schedule inside the first n prices is worth more. */
  ghost predicate Bounds(m: Market, n: nat, best: real) {
    forall trades: seq<RoundTrip> :: Schedule(m, trades, n) ==> InRange(m, trades) && Total(m, trades) <= best
  }

  /**
   * A row of the table: its value, the row it came from, and the trade that links them (buyAt < 0
   * when there is none).
   */
  datatype Row = Row(best: Option<real>, prev: int, buyAt: int, sellAt: int)

  const UNSET := Row(None, -1, -1, -1)

  /** Whether x is more than y, when None stands for minus infinity. */
  predicate Exceeds(x: Option<real>, y: Option<real>) {
    x.Some? && (y == None || x.value > y.value)
  }

  ghost predicate RowSound(m: Market, rows: seq<Row>, n: nat)
    requires 0 < n < |rows|
  {
    var row := rows[n];
    && 0 <= row.prev < n && row.best.Some? && rows[row.prev].best.Some?
    && if row.buyAt < 0 then row.best == rows[row.prev].best
       else
         && row.buyAt == row.prev < row.sellAt < n <= |m.prices|
         && var gain := Gain(m, RoundTrip(row.buyAt, row.sellAt));
            gain > 0.0 && row.best.value == rows[row.prev].best.value + gain
  }

  /** The first j rows are filled: sound, non-decreasing, and best possible. */
  ghost predicate Filled(m: Market, rows: seq<Row>, j: nat) {
    && j < |rows| == |m.prices| + 1
    && rows[0].best == Some(0.0)
    && (forall k :: 0 < k <= j ==> RowSound(m, rows, k))
    && (forall k :: 0 <= k <= j ==> rows[k].best.Some? && Bounds(m, k, rows[k].best.value))
    && (forall k, l :: 0 <= k <= l <= j ==> rows[k].best.value <= rows[l].best.value)
  }

  lemma {:induction false} NothingBefore(m: Market)
    ensures Bounds(m, 0, 0.0)
  {
    forall trades: seq<RoundTrip> | Schedule(m, trades, 0) ensures InRange(m, trades) && Total(m, trades) <= 0.0 {
      LastEndsInside(m, trades, 0);
    }
  }

  lemma LastEndsInside(m: Market, trades: seq<RoundTrip>, n: nat)
    requires Schedule(m, trades, n)
    ensures trades == [] || trades[|trades| - 1].sell < n
  {
  }

  /** The last trade of a schedule either ends before price j or sells at it. */
  lemma RowBounds(m: Market, rows: seq<Row>, j: nat, best: real)
    requires Filled(m, rows, j) && j < |m.prices| && rows[j].best.value <= best
    requires forall i ::
            0 <= i < j && Gain(m, RoundTrip(i, j)) > 0.0 ==> rows[i].best.value + Gain(m, RoundTrip(i, j)) <= best
    ensures Bounds(m, j + 1, best)
  {
    forall trades: seq<RoundTrip> | Schedule(m, trades, j + 1) ensures InRange(m, trades) && Total(m, trades) <= best {
      ScheduleInRange(m, trades, j + 1);
      if trades != [] {
        var last, rest := trades[|trades| - 1], trades[..|trades| - 1];
        ScheduleSplits(m, trades, j + 1);
        if last.sell < j {
          assert Schedule(m, trades, j) by {
            forall k | 0 <= k < |trades| ensures trades[k].sell < j {
              if k < |trades| - 1 {
                SellsBefore(m, trades, j + 1, k, |trades| - 1);
              }
            }
          }
        } else {
          assert Bounds(m, last.buy, rows[last.buy].best.value);
          assert Total(m, rest) <= rows[last.buy].best.value <= rows[j].best.value;
          assert last == RoundTrip(last.buy, j);
        }
      } else {
        assert Bounds(m, j, rows[j].best.value);
        assert Schedule(m, [], j);
      }
    }
  }

  // ----- filling and reading the table

  method FillRow(m: Market, rows: array<Row>, j: nat)
    requires rows.Length == |m.prices| + 1 && j < |m.prices|
    requires Filled(m, rows[..], j) && rows[j + 1] == UNSET
    modifies rows
    ensures forall k :: 0 <= k < rows.Length && k != j + 1 ==> rows[k] == old(rows[k])
    ensures rows[j + 1].best.Some? && rows[j].best.value <= rows[j + 1].best.value
    ensures RowSound(m, rows[..], j + 1)
    ensures forall i :: 0 <= i < j && Gain(m, RoundTrip(i, j)) > 0.0
              ==> rows[i].best.value + Gain(m, RoundTrip(i, j)) <= rows[j + 1].best.value
  {
    if Exceeds(rows[j].best, rows[j + 1].best) {
      rows[j + 1] := rows[j + 1].(best := rows[j].best, prev := j, buyAt := -1);
    }
    if j == 0 || m.prices[j] <= 0.0 {
      return;
    }
    for i := 0 to j
      invariant forall k :: 0 <= k < rows.Length && k != j + 1 ==> rows[k] == old(rows[k])
      invariant rows[j + 1].best.Some? && rows[j].best.value <= rows[j + 1].best.value
      invariant RowSound(m, rows[..], j + 1)
      invariant forall k :: 0 <= k < i && Gain(m, RoundTrip(k, j)) > 0.0
                  ==> rows[k].best.value + Gain(m, RoundTrip(k, j)) <= rows[j + 1].best.value
    {
      if m.prices[i] <= 0.0 {
        continue;
      }
      var gain := RoundTripPnl(m.prices[i], m.prices[j], m.notional, m.makerFeeBps, m.takerFeeBps);
      if gain <= 0.0 {
        continue;
      }
      var cand := rows[i].best.value + gain;
      if Exceeds(Some(cand), rows[j + 1].best) {
        rows[j + 1] := Row(Some(cand), i, i, j);
      }
    }
  }

  function Reversed(trades: seq<RoundTrip>): seq<RoundTrip> {
    if trades == [] then [] else [trades[|trades| - 1]] + Reversed(trades[..|trades| - 1])
  }

  /** Strictly profitable round trips, in order, worth at least as much as any other schedule. */
  method OracleTrades(prices: seq<real>, notional: real, makerFeeBps: real, takerFeeBps: real)
    returns (trades: seq<RoundTrip>)
    ensures var m := Market(prices, notional, makerFeeBps, takerFeeBps);
            && Schedule(m, trades, |prices|) && InRange(m, trades)
            && (forall t :: t in trades ==> Earns(m, t) > 0.0)
            && forall other: seq<RoundTrip> :: Schedule(m, other, |prices|)
                 ==> InRange(m, other) && Earned(m, other) <= Earned(m, trades)
  {
    var m := Market(prices, notional, makerFeeBps, takerFeeBps);
    var n := |prices|;
    var rows := new Row[n + 1](_ => UNSET);
    rows[0] := UNSET.(best := Some(0.0));
    NothingBefore(m);
    for j := 0 to n
      invariant Filled(m, rows[..], j)
      invariant forall k :: j < k <= n ==> rows[k] == UNSET
    {
      ghost var before := rows[..];
      FillRow(m, rows, j);
      FilledStep(m, before, rows[..], j);
    }
    trades := ReadBack(m, rows);
    BestIsEarned(m, trades, rows[n].best.value);
  }

  /** What a round trip earns in dollars: the units the notional buys, sold, less both fees. */
  function Earns(m: Market, t: RoundTrip): real
    requires t.buy < |m.prices| && t.sell < |m.prices|
  {
    var entry, exit := m.prices[t.buy], m.prices[t.sell];
    var maker := if m.makerFeeBps > 0.0 then m.makerFeeBps / 10_000.0 else 0.0;
    var taker := if m.takerFeeBps > 0.0 then m.takerFeeBps / 10_000.0 else 0.0;
    if entry > 0.0 && exit > 0.0 && m.notional > 0.0
    then m.notional * (exit * (1.0 - taker) - entry * (1.0 + maker)) / entry
    else 0.0
  }

  /** The dollars of a schedule, trade by trade. */
  ghost function Earned(m: Market, trades: seq<RoundTrip>): real
    requires InRange(m, trades)
  {
    if trades == [] then 0.0 else Earned(m, trades[..|trades| - 1]) + Earns(m, trades[|trades| - 1])
  }

  lemma {:induction false} GainIsEarned(m: Market, t: RoundTrip)
    requires t.buy < |m.prices| && t.sell < |m.prices|
    ensures Gain(m, t) == Earns(m, t)
  {
    hide RoundTripPnl;
    var entry, exit := m.prices[t.buy], m.prices[t.sell];
    PnlIsExact(entry, exit, m.notional, m.makerFeeBps, m.takerFeeBps);
    if entry > 0.0 && exit > 0.0 && m.notional > 0.0 {
      var taker := if m.takerFeeBps > 0.0 then m.takerFeeBps / 10_000.0 else 0.0;
      var maker := if m.makerFeeBps > 0.0 then m.makerFeeBps / 10_000.0 else 0.0;
      var product := m.notional * (exit * (1.0 - taker) - entry * (1.0 + maker));
      QuotientTimes(product, entry);
      FactorKeepsOrder(entry, Gain(m, t), product / entry);
    }
  }

  lemma {:induction false} TotalIsEarned(m: Market, trades: seq<RoundTrip>)
    requires InRange(m, trades)
    ensures Total(m, trades) == Earned(m, trades)
  {
    hide Gain, Earns;
    if trades != [] {
      var n := |trades| - 1;
      assert forall t :: t in trades[..n] ==> t in trades;
      TotalIsEarned(m, trades[..n]);
      GainIsEarned(m, trades[n]);
    }
  }

  /** The best total is the most that can be earned. */
  lemma {:induction false} BestIsEarned(m: Market, trades: seq<RoundTrip>, best: real)
    requires InRange(m, trades) && AllProfitable(m, trades) && Total(m, trades) == best && Bounds(m, |m.prices|, best)
    ensures forall t :: t in trades ==> Earns(m, t) > 0.0
    ensures forall other: seq<RoundTrip> :: Schedule(m, other, |m.prices|)
              ==> InRange(m, other) && Earned(m, other) <= Earned(m, trades)
  {
    hide Gain, Earns, Total, Earned, Schedule;
    forall t | t in trades ensures Earns(m, t) > 0.0 {
      GainIsEarned(m, t);
    }
    TotalIsEarned(m, trades);
    forall other: seq<RoundTrip> | Schedule(m, other, |m.prices|)
      ensures InRange(m, other) && Earned(m, other) <= Earned(m, trades) {
      TotalIsEarned(m, other);
    }
  }

  lemma {:induction false} FilledStep(m: Market, before: seq<Row>, rows: seq<Row>, j: nat)
    requires Filled(m, before, j) && j < |m.prices| && |rows| == |before|
    requires forall k :: 0 <= k < |rows| && k != j + 1 ==> rows[k] == before[k]
    requires rows[j + 1].best.Some? && rows[j].best.value <= rows[j + 1].best.value && RowSound(m, rows, j + 1)
    requires forall i :: 0 <= i < j && Gain(m, RoundTrip(i, j)) > 0.0
               ==> rows[i].best.value + Gain(m, RoundTrip(i, j)) <= rows[j + 1].best.value
    ensures Filled(m, rows, j + 1)
  {
    hide Bounds, RowSound;
    RowBounds(m, before, j, rows[j + 1].best.value);
    forall k | 0 < k <= j ensures RowSound(m, rows, k) {
      SameSound(m, before, rows, k);
    }
  }

  lemma SameSound(m: Market, before: seq<Row>, rows: seq<Row>, k: nat)
    requires 0 < k < |rows| == |before| && RowSound(m, before, k)
    requires forall l :: 0 <= l <= k ==> rows[l] == before[l]
    ensures RowSound(m, rows, k)
  {
    hide Gain;
  }

  /** One more trip, earlier than those already read. */
  lemma {:induction false} TripBefore(m: Market, t: RoundTrip, pushed: seq<RoundTrip>, k: nat)
    requires Trips(m, Reversed(pushed), k) && t.buy < t.sell < k <= |m.prices| && Gain(m, t) > 0.0
    ensures Reversed(pushed + [t]) == [t] + Reversed(pushed)
    ensures Trips(m, Reversed(pushed + [t]), t.buy)
    ensures Total(m, Reversed(pushed + [t])) == Gain(m, t) + Total(m, Reversed(pushed))
  {
    hide Gain, Total;
    assert (pushed + [t])[..|pushed|] == pushed;
    var later := Reversed(pushed);
    var all := [t] + later;
    assert [t][0] == t && forall i :: 0 < i < |all| ==> all[i] == later[i - 1];
    TotalPrepend(m, t, later);
  }

  method ReadBack(m: Market, rows: array<Row>) returns (trades: seq<RoundTrip>)
    requires Filled(m, rows[..], |m.prices|)
    ensures Schedule(m, trades, |m.prices|) && InRange(m, trades) && AllProfitable(m, trades)
    ensures Total(m, trades) == rows[|m.prices|].best.value
  {
    hide Bounds, Gain, RowSound, Schedule, AllProfitable, Total, Reversed;
    NoTrips(m);
    var pushed: seq<RoundTrip> := [];
    var k := |m.prices|;
    while k > 0
      invariant 0 <= k <= |m.prices|
      invariant Trips(m, Reversed(pushed), k)
      invariant Total(m, Reversed(pushed)) + rows[k].best.value == rows[|m.prices|].best.value
    {
      SoundRow(m, rows[..], k);
      var row := rows[k];
      if row.buyAt >= 0 {
        var t := RoundTrip(row.buyAt, row.sellAt);
        TripOfRow(m, rows[..], k);
        TripBefore(m, t, pushed, k);
        pushed := pushed + [t];
      } else {
        TripsFrom(m, Reversed(pushed), k, row.prev);
      }
      if row.prev < 0 || row.prev >= k {
        break;
      }
      k := row.prev;
    }
    trades := Reversed(pushed);
  }

  /** Profitable trips in order, all bought at or after price k. */
  ghost predicate Trips(m: Market, trades: seq<RoundTrip>, k: nat) {
    && Schedule(m, trades, |m.prices|) && InRange(m, trades) && AllProfitable(m, trades)
    && (trades != [] ==> k <= trades[0].buy)
  }

  lemma NoTrips(m: Market)
    ensures Reversed([]) == [] && Trips(m, [], |m.prices|) && Total(m, []) == 0.0
  {
  }

  lemma TripsFrom(m: Market, trades: seq<RoundTrip>, k: nat, earlier: nat)
    requires Trips(m, trades, k) && earlier <= k
    ensures Trips(m, trades, earlier)
  {
  }

  lemma SoundRow(m: Market, rows: seq<Row>, k: nat)
    requires Filled(m, rows, |m.prices|) && 0 < k <= |m.prices|
    ensures 0 <= rows[k].prev < k && rows[k].best.Some? && rows[rows[k].prev].best.Some?
    ensures rows[k].buyAt < 0 ==> rows[k].best == rows[rows[k].prev].best
    ensures rows[k].buyAt >= 0 ==> 0 <= rows[k].sellAt
  {
    hide Bounds;
    assert RowSound(m, rows, k);
  }

  /** The trade behind a row: profitable, bought at the predecessor, sold before the row. */
  lemma TripOfRow(m: Market, rows: seq<Row>, k: nat)
    requires Filled(m, rows, |m.prices|) && 0 < k <= |m.prices| && rows[k].buyAt >= 0
    ensures rows[k].buyAt == rows[k].prev < rows[k].sellAt < k && rows[rows[k].prev].best.Some? && rows[k].best.Some?
    ensures var t := RoundTrip(rows[k].buyAt, rows[k].sellAt);
            Gain(m, t) > 0.0 && rows[k].best.value == rows[rows[k].prev].best.value + Gain(m, t)
  {
    hide Bounds, Gain;
    assert RowSound(m, rows, k);
  }
}
