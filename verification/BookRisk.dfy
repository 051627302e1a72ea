/** Sizing arithmetic: what one entry can lose, and when a moved stop can make that worse. */
module BookRisk {
  import opened Basics
  import opened BookModel

  /** How an admitted position was sized; `stop` may since have moved up. */
  ghost predicate Sized(cfg: Config, p: Position) {
    var load := p.stopBps + p.costBps;
    && p.costBps == CostBps(cfg)
    && p.stopBps > 0.0 && load > 0.0
    && p.notionalUsd == NotionalUsd(load)
    && p.entryRiskUsd == EntryOpenRiskUsd(p.notionalUsd, load)
    && p.fillEntry == BuyFill(p.rawEntry, cfg.sBtBps)
    && p.units == p.notionalUsd / p.fillEntry
    && 0.0 < InitialStop(p) <= p.stop
  }

  ghost function InitialStop(p: Position): real {
    p.rawEntry - p.rawEntry * p.stopBps / 10_000.0
  }

  /** Every entry risks exactly $60, or less because its notional is at the cap. */
  lemma SizeBounds(load: real)
    requires load > 0.0
    ensures 0.0 < NotionalUsd(load) <= NOTIONAL_CAP_USD
    ensures 0.0 < EntryOpenRiskUsd(NotionalUsd(load), load) <= RISK_USD
    ensures EntryOpenRiskUsd(NotionalUsd(load), load) == RISK_USD || NotionalUsd(load) == NOTIONAL_CAP_USD
  {
    var k := load / 10_000.0;
    var n := NotionalUsd(load);
    assert RISK_USD / k > 0.0 && RISK_USD / k * k == RISK_USD;
    ProductMonotone(n, RISK_USD / k, k);
    ProductPositive(n, k);
    assert n * load / 10_000.0 == n * k;
  }

  lemma NewPositionIsSized(cfg: Config, c: Candidate, ts: int, bar: Bar)
    requires c.productId in cfg.pairs && ValidStop(bar, c.stopDistance)
    requires StopBps(bar, c.stopDistance) + CostBps(cfg) > 0.0
    ensures BuyFill(bar.open, cfg.sBtBps) > 0.0
    ensures Sized(cfg, NewPosition(cfg, c, ts, QuoteOf(cfg, c, ts, bar)))
    ensures NewPosition(cfg, c, ts, QuoteOf(cfg, c, ts, bar)).stop
            == InitialStop(NewPosition(cfg, c, ts, QuoteOf(cfg, c, ts, bar)))
  {
    FillIsPositive(cfg, bar);
    var d, o := c.stopDistance, bar.open;
    var b := StopBps(bar, d);
    assert b == d / o * 10_000.0;
    assert o * b / 10_000.0 == d by {
      assert o * (d / o) == d;
      assert o * b == o * (d / o) * 10_000.0;
    }
    assert b > 0.0;
  }

  /** Both risks, scaled by the same positive factor, without quotients. */
  lemma {:induction false} ScaledRisk(cfg: Config, p: Position)
    requires Sized(cfg, p) && p.stopMoved
    ensures LiveRisk(p, cfg.sBtBps) > p.entryRiskUsd
       <==> 10_000.0 * Max(0.0, p.fillEntry - p.stop) + p.stop * (TAKER_FEE_BPS + cfg.sBtBps)
            > p.fillEntry * (p.stopBps + p.costBps)
  {
    hide InitialStop, NotionalUsd, BuyFill, CostBps;
    var u, f, e, load := p.units, p.fillEntry, TAKER_FEE_BPS + cfg.sBtBps, p.stopBps + p.costBps;
    SizeBounds(load);
    UnitsOf(p.notionalUsd, f);
    ScaledSum(u, Max(0.0, f - p.stop), p.stop, e, f, load);
  }

  lemma UnitsOf(notional: real, f: real)
    requires notional > 0.0 && f > 0.0
    ensures notional / f > 0.0 && notional / f * f == notional
  {
  }

  lemma ScaledSum(u: real, a: real, b: real, e: real, f: real, load: real)
    requires u > 0.0
    ensures u * a + u * b * e / 10_000.0 > u * f * load / 10_000.0 <==> 10_000.0 * a + b * e > f * load
  {
    var x, y := b * e, f * load;
    assert u * b * e == u * x;
    assert u * f * load == u * y;
    Compared(u, 10_000.0 * a + x, y);
    assert u * (10_000.0 * a + x) == 10_000.0 * (u * a) + u * x;
  }

  lemma Compared(u: real, x: real, y: real)
    requires u > 0.0
    ensures u * x > u * y <==> x > y
  {
    if x > y {
      ProductPositive(x - y, u);
      assert u * x - u * y == (x - y) * u;
    } else {
      ProductMonotone(x, y, u);
    }
  }

  /**
   * A position's live risk exceeds what it risked at entry exactly when its stop has moved and,
   * measured in bps of the prices, what is left to the stop plus one exit leg on it is more than
   * the whole load on the fill. Any sizing cost, any spread.
   */
  lemma {:induction false} LiveRiskExceedsEntryRisk(cfg: Config, p: Position)
    requires Sized(cfg, p)
    ensures LiveRisk(p, cfg.sBtBps) > p.entryRiskUsd
       <==> p.stopMoved && MovedRisk(cfg, p) > p.fillEntry * (p.stopBps + p.costBps)
  {
    if p.stopMoved {
      ScaledRisk(cfg, p);
    }
  }

  function MovedRisk(cfg: Config, p: Position): real {
    var exitLeg := p.stop * (TAKER_FEE_BPS + cfg.sBtBps);
    if p.stop <= p.fillEntry then 10_000.0 * (p.fillEntry - p.stop) + exitLeg else exitLeg
  }

  /** Sized at two exit legs or more, as it is by default, on a spread that leaves an exit leg its cost. */
  predicate CoversBothLegs(cfg: Config) {
    cfg.sBtBps >= -TAKER_FEE_BPS && CostBps(cfg) >= SizingCostBps(cfg.sBtBps)
  }

  /** Then a stop at or below the fill never risks more than the entry did. */
  lemma {:induction false} BelowFillIsCovered(cfg: Config, p: Position)
    requires Sized(cfg, p) && CoversBothLegs(cfg) && p.stop <= p.fillEntry
    ensures MovedRisk(cfg, p) <= p.fillEntry * (p.stopBps + p.costBps)
  {
    hide NotionalUsd, EntryOpenRiskUsd;
    BelowFill(p.rawEntry, cfg.sBtBps, p.stopBps, p.costBps, p.fillEntry, p.stop, InitialStop(p));
  }

  /** No stop at or below the fill can risk more than the entry did. */
  ghost predicate StopsAreCovered(cfg: Config) {
    forall p: Position :: Sized(cfg, p) && p.stop <= p.fillEntry
      ==> MovedRisk(cfg, p) <= p.fillEntry * (p.stopBps + p.costBps)
  }

  /**
   * Sized at two exit legs, that is so exactly when an exit leg is not negative, or so negative that
   * no entry can be sized at all.
   */
  lemma {:induction false} LegDecidesCover(cfg: Config)
    requires CostBps(cfg) == SizingCostBps(cfg.sBtBps)
    ensures StopsAreCovered(cfg) <==> cfg.sBtBps >= -90.0 || cfg.sBtBps <= -5_090.0
  {
    hide MovedRisk, NotionalUsd, EntryOpenRiskUsd, CostBps, BuyFill, InitialStop;
    if cfg.sBtBps >= -90.0 {
      forall p: Position | Sized(cfg, p) && p.stop <= p.fillEntry
        ensures MovedRisk(cfg, p) <= p.fillEntry * (p.stopBps + p.costBps) {
        BelowFillIsCovered(cfg, p);
      }
    } else if cfg.sBtBps <= -5_090.0 {
      forall p: Position ensures !Sized(cfg, p) {
        NoneIsSized(cfg, p);
      }
    } else {
      var p := NearlyAllAtRisk(cfg);
    }
  }

  lemma NoneIsSized(cfg: Config, p: Position)
    requires CostBps(cfg) == SizingCostBps(cfg.sBtBps) && cfg.sBtBps <= -5_090.0
    ensures !Sized(cfg, p)
  {
    hide NotionalUsd, EntryOpenRiskUsd, CostBps, BuyFill;
    if Sized(cfg, p) {
      StopInBps(p.rawEntry, p.stopBps, InitialStop(p));
      assert false;
    }
  }

  /** A stop a hair above nothing, on a spread that pays for leaving. */
  lemma {:induction false} NearlyAllAtRisk(cfg: Config) returns (p: Position)
    requires CostBps(cfg) == SizingCostBps(cfg.sBtBps) && -5_090.0 < cfg.sBtBps < -90.0
    ensures Sized(cfg, p) && p.stop <= p.fillEntry
    ensures MovedRisk(cfg, p) > p.fillEntry * (p.stopBps + p.costBps)
  {
    hide NotionalUsd, EntryOpenRiskUsd, CostBps;
    var s: real := cfg.sBtBps;
    var hair := Min(1.0, Min(-90.0 - s, 10_180.0 + 2.0 * s)) / 2.0;
    var b, f := 10_000.0 - hair, BuyFill(1.0, s);
    var load := b + CostBps(cfg);
    SizeBounds(load);
    var n := NotionalUsd(load);
    p := PositionRecord(A, "", 0, 0, 1.0, f, n / f, n, hair / 10_000.0, None, None, "", FLAT_BAR,
        EntryOpenRiskUsd(n, load), b, CostBps(cfg), None, false);
    HairAtRisk(s, hair, f);
  }

  lemma {:induction false} HairAtRisk(s: real, hair: real, f: real)
    requires -5_090.0 < s < -90.0 && 0.0 < hair <= 0.5 && 2.0 * hair <= -90.0 - s && f == 1.0 + s / 10_000.0
    ensures hair / 10_000.0 < f
    ensures 10_000.0 * (f - hair / 10_000.0) + hair / 10_000.0 * (90.0 + s) > f * (10_000.0 - hair + 2.0 * (90.0 + s))
  {
    var d := -90.0 - s;
    var short, rest := 9_910.0 - d, 10_000.0 - hair - 2.0 * d;
    Unscaled(short, rest);
    Unscaled(hair, -d);
    HairIsSmall(d, hair, short);
    InShort(d, hair, short, rest, hair * d, short * d);
    assert f == short / 10_000.0 && 90.0 + s == -d;
    assert f * rest == short * rest / 10_000.0;
    assert 10_000.0 - hair + 2.0 * (90.0 + s) == rest;
  }

  lemma Unscaled(x: real, y: real)
    ensures x / 10_000.0 * y == x * y / 10_000.0
  {
  }

  lemma {:induction false} HairIsSmall(d: real, hair: real, short: real)
    requires 0.0 < d && 0.0 < hair <= 0.5 && 2.0 * hair <= d && short >= 4_910.0
    ensures 90.0 * hair + 2.0 * (hair * d) < 2.0 * (short * d)
  {
    ProductMonotone(hair, 0.5, d);
    ProductMonotone(4_910.0, short, d);
    Outweighed(d, hair, hair * d, short * d);
  }

  lemma Outweighed(d: real, hair: real, part: real, whole: real)
    requires d > 0.0 && 2.0 * hair <= d && part <= 0.5 * d && whole >= 4_910.0 * d
    ensures 90.0 * hair + 2.0 * part < 2.0 * whole
  {
  }

  lemma InShort(d: real, hair: real, short: real, rest: real, part: real, whole: real)
    requires short == 9_910.0 - d && rest == 10_000.0 - hair - 2.0 * d && part == hair * d && whole == short * d
    ensures short * rest == 10_000.0 * short - 9_910.0 * hair + part - 2.0 * whole
    ensures hair * -d == -part
  {
  }

  lemma {:induction false} BelowFill(o: real, s: real, b: real, c: real, f: real, stop: real, initialStop: real)
    requires o > 0.0 && s >= -TAKER_FEE_BPS && b > 0.0 && c >= 2.0 * (TAKER_FEE_BPS + s)
    requires f == o * (1.0 + s / 10_000.0) && initialStop == o - o * b / 10_000.0 && 0.0 < initialStop <= stop <= f
    ensures 10_000.0 * (f - stop) + stop * (TAKER_FEE_BPS + s) <= f * (b + c)
  {
    var e := TAKER_FEE_BPS + s;
    FillInBps(o, s, b, f, initialStop);
    ProductMonotone(stop, f, e);
    Legs(o, s, b, f, initialStop);
    ProductMonotone(b + 2.0 * e, b + c, f);
    TwoLegs(f, b, e);
    Chained(10_000.0 * (f - stop), stop * e, o * (s + b), f * e, f * (b + e), (b + 2.0 * e) * f, f * (b + c));
  }

  lemma TwoLegs(f: real, b: real, e: real)
    ensures f * (b + e) + f * e == (b + 2.0 * e) * f
  {
  }

  lemma Chained(toStop: real, leg: real, toInitial: real, fillLeg: real, fillStop: real, load: real, all: real)
    requires toStop <= toInitial <= fillStop && leg <= fillLeg && fillStop + fillLeg <= load <= all
    ensures toStop + leg <= all
  {
  }

  lemma FillInBps(o: real, s: real, b: real, f: real, initialStop: real)
    requires f == o * (1.0 + s / 10_000.0) && initialStop == o - o * b / 10_000.0
    ensures 10_000.0 * (f - initialStop) == o * (s + b)
  {
  }

  /** One exit leg on the fill makes up for what the fill differs from the raw price. */
  lemma {:induction false} Legs(o: real, s: real, b: real, f: real, initialStop: real)
    requires o > 0.0 && s >= -TAKER_FEE_BPS && b > 0.0 && f == o * (1.0 + s / 10_000.0)
    requires initialStop == o - o * b / 10_000.0 && initialStop > 0.0
    ensures o * (s + b) <= f * (b + (TAKER_FEE_BPS + s))
  {
    var total := b + (TAKER_FEE_BPS + s);
    StopInBps(o, b, initialStop);
    SpreadWithinLeg(s, b, total);
    assert f * total == o * total + o * (s * total / 10_000.0);
    ProductMonotone(s + b, total + s * total / 10_000.0, o);
    assert o * (total + s * total / 10_000.0) == o * total + o * (s * total / 10_000.0);
    assert (total + s * total / 10_000.0) * o == o * (total + s * total / 10_000.0);
  }

  lemma StopInBps(o: real, b: real, initialStop: real)
    requires o > 0.0 && initialStop == o - o * b / 10_000.0 && initialStop > 0.0
    ensures b < 10_000.0
  {
    if b >= 10_000.0 {
      ProductMonotone(10_000.0, b, o);
    }
  }

  lemma {:induction false} SpreadWithinLeg(s: real, b: real, total: real)
    requires s >= -TAKER_FEE_BPS && 0.0 < b < 10_000.0 && total == b + (TAKER_FEE_BPS + s)
    ensures s * total >= -900_000.0
  {
    if s >= 0.0 {
      ProductMonotone(0.0, s, total);
    } else {
      Negated(s, total);
      LegWithin(-s, total);
    }
  }

  lemma {:induction false} LegWithin(t: real, total: real)
    requires 0.0 < t <= 90.0 && total <= 10_090.0 - t
    ensures total * t <= 900_000.0
  {
    ProductMonotone(total, 10_090.0 - t, t);
    Parabola(t);
  }

  lemma Parabola(t: real)
    requires 0.0 < t <= 90.0
    ensures (10_090.0 - t) * t <= 900_000.0
  {
    var x, y := 90.0 - t, 10_000.0 - t;
    NotNegative(x, y);
    assert x * y == 900_000.0 - (10_090.0 - t) * t;
  }

  lemma NotNegative(x: real, y: real)
    requires x >= 0.0 && y >= 0.0
    ensures x * y >= 0.0
  {
  }

  lemma Negated(s: real, total: real)
    ensures s * total == -(total * -s)
  {
  }

  /** Above the fill, only past the load in exit legs: never while the stop is at most twice the fill. */
  lemma {:induction false} LiveRiskWithinEntryRisk(cfg: Config, p: Position)
    requires Sized(cfg, p) && CoversBothLegs(cfg)
    requires !p.stopMoved || p.stop <= 2.0 * p.fillEntry
    ensures LiveRisk(p, cfg.sBtBps) <= p.entryRiskUsd <= RISK_USD
  {
    hide LiveRisk, EntryOpenRiskUsd, NotionalUsd, InitialStop;
    SizeBounds(p.stopBps + p.costBps);
    LiveRiskExceedsEntryRisk(cfg, p);
    if p.stop <= p.fillEntry {
      BelowFillIsCovered(cfg, p);
    } else if p.stopMoved {
      TwiceTheFill(p.stop, p.fillEntry, TAKER_FEE_BPS + cfg.sBtBps, p.stopBps, p.costBps);
    }
  }

  lemma {:induction false} TwiceTheFill(stop: real, f: real, e: real, b: real, c: real)
    requires stop <= 2.0 * f && f > 0.0 && e >= 0.0 && b > 0.0 && c >= 2.0 * e
    ensures stop * e <= f * (b + c)
  {
    ProductMonotone(stop, 2.0 * f, e);
    ProductMonotone(2.0 * e, b + c, f);
    assert (2.0 * f) * e == (2.0 * e) * f;
  }
}
