/**
 * What a position and a closed trade are, told from the market: prices, fills, sizes, dollars, and
 * when each exit is due.
 */
module BookTrades {
  import opened Basics
  import opened BookModel
  import opened BookRisk
  import opened BookSafety
  import opened BookEquity

  // ----- one exit

  /** The trade carries what the position was, and its dollars are units times prices, less two fees. */
  ghost predicate TradeOf(p: Position, t: Trade) {
    && t.classId == p.classId && t.productId == p.productId && t.signalDate == p.signalDate && t.entryTs == p.entryTs
    && t.rawEntry == p.rawEntry && t.fillEntry == p.fillEntry && t.units == p.units && t.notionalUsd == p.notionalUsd
    && t.entryRiskUsd == p.entryRiskUsd && t.stopBps == p.stopBps && t.costBps == p.costBps
    && t.windowMark == (t.reason == Window)
    && Dollars(t)
  }

  ghost predicate Dollars(t: Trade) {
    && t.grossUsd == t.units * (t.rawExit - t.rawEntry)
    && t.netUsd == t.units * (t.fillExit - t.fillEntry) - 2.0 * (t.units * t.fillEntry * 90.0 / 10_000.0)
    && t.rawEntry * t.grossBps == 10_000.0 * (t.rawExit - t.rawEntry)
    && t.fillEntry * (t.netBps + 180.0) == 10_000.0 * (t.fillExit - t.fillEntry)
  }

  /** Position i has left, the others keep their order, and its trade is the newest. */
  ghost predicate ClosedAt(s: State, t: State, i: nat, exitTs: int, reason: Reason, rawExit: real, fillExit: real)
    requires i < |s.open|
  {
    && t.open == s.open[..i] + s.open[i + 1..]
    && |t.trades| == |s.trades| + 1 && t.trades[..|s.trades|] == s.trades
    && var trade := t.trades[|s.trades|];
       && trade.exitTs == exitTs && trade.reason == reason && trade.rawExit == rawExit && trade.fillExit == fillExit
       && TradeOf(s.open[i], trade)
  }

  lemma BpsOf(x: real, y: real)
    requires x != 0.0
    ensures x * ((y - x) / x * 10_000.0) == 10_000.0 * (y - x)
  {
    QuotientTimes(y - x, x);
  }

  lemma {:induction false} DropCloses(cfg: Config, s: State, i: nat, bar: Bar, reason: Reason, rawExit: real,
      fillExit: real)
    requires i < |s.open|
    ensures ClosedAt(s, Drop(cfg, s, i, bar, reason, rawExit, fillExit), i, bar.ts, reason, rawExit, fillExit)
  {
    hide Drop, Dollars;
    var p := s.open[i].(lastBar := bar);
    DropLeaves(cfg, s, i, bar, reason, rawExit, fillExit);
    TradeDollars(p, reason, rawExit, fillExit, reason == Window);
  }

  lemma {:induction false} TradeDollars(p: Position, reason: Reason, rawExit: real, fillExit: real, windowMark: bool)
    ensures Dollars(CloseTrade(p, reason, rawExit, fillExit, windowMark))
  {
    NetDollars(p, reason, rawExit, fillExit, windowMark);
    BpsOf(p.rawEntry, rawExit);
    BpsOf(p.fillEntry, fillExit);
    assert p.fillEntry * (NetBps(p.fillEntry, fillExit) + 180.0)
        == p.fillEntry * ((fillExit - p.fillEntry) / p.fillEntry * 10_000.0);
  }

  /** A gap check closes a position at its bar's open, exactly when that is at or below the stop. */
  lemma {:induction false} GapDecides(cfg: Config, s: State, i: nat, ts: int)
    requires !s.threw && i < |s.open|
    ensures var t, p := Step(cfg, s, Event(ts, CheckGap(i))), s.open[i];
            if p.productId in cfg.pairs && ts in cfg.pairs[p.productId].bars
               && cfg.pairs[p.productId].bars[ts].open <= p.stop
            then
              var open := cfg.pairs[p.productId].bars[ts].open;
              ClosedAt(s, t, i, ts, Gap, open, open)
            else t == s
  {
    hide Drop, ClosedAt;
    var bar := BarAt(cfg, s.open[i].productId, ts);
    if bar.Some? {
      DropCloses(cfg, s, i, bar.value, Gap, bar.value.open, bar.value.open);
    }
  }

  /** The bar a position is managed on: the one it has just seen, or its pair's at that time. */
  ghost function ManagedBar(cfg: Config, p: Position, ts: int): Option<Bar> {
    if p.lastBar.ts == ts then Some(p.lastBar)
    else if p.productId in cfg.pairs && ts in cfg.pairs[p.productId].bars then Some(cfg.pairs[p.productId].bars[ts])
    else None
  }

  ghost predicate StopDue(p: Position, bar: Bar) {
    bar.low <= p.stop < bar.open
  }

  ghost predicate RuleDueAtOpen(p: Position, bar: Bar) {
    p.ruleExit.Some? && p.ruleExit.value.at == AtOpen && bar.ts == p.ruleExit.value.ts
  }

  ghost predicate RuleDueAtClose(p: Position, bar: Bar) {
    p.ruleExit.Some? && p.ruleExit.value.at == AtClose && bar.ts < p.ruleExit.value.ts <= bar.ts + 900
  }

  ghost function LessSpread(cfg: Config, price: real): real {
    price * (1.0 - cfg.sBtBps / 10_000.0)
  }

  /** The larger of the spread on the raw entry and a tenth of the ATR of the hour. */
  ghost function StopSlip(cfg: Config, p: Position, ts: int): real {
    var spread := p.rawEntry * cfg.sBtBps / 10_000.0;
    var tenth := if p.productId in cfg.pairs then cfg.pairs[p.productId].atr1h(ts) / 10.0 else 0.0;
    if spread < tenth then tenth else spread
  }

  /** The day a class A position trails on at this bar, when it is the day's last. */
  ghost function TrailDay(cfg: Config, p: Position, bar: Bar): Option<Daily> {
    if p.classId == A && bar.ts >= 0 && bar.ts % 86_400 == 85_500 && p.productId in cfg.pairs
       && bar.ts / 86_400 in cfg.pairs[p.productId].daily
    then
      var daily := cfg.pairs[p.productId].daily[bar.ts / 86_400];
      if daily.close > 0.0 && daily.atr > 0.0 then Some(daily) else None
    else None
  }

  /** The position after a bar it stays through. */
  ghost predicate StaysAs(cfg: Config, p: Position, bar: Bar, q: Position) {
    var day := TrailDay(cfg, p, bar);
    if day == None then q == p.(lastBar := bar)
    else
      && q.highestClose.Some?
      && var close, highest := day.value.close, q.highestClose.value;
         && highest == (if p.highestClose.Some? && p.highestClose.value > close then p.highestClose.value else close)
         && q.stop == Max(p.stop, highest - 3.0 * day.value.atr)
         && q == p.(lastBar := bar, highestClose := q.highestClose, stop := q.stop,
             stopMoved := p.stopMoved || q.stop > p.stop)
  }

  lemma TrailedStays(cfg: Config, p: Position, bar: Bar)
    ensures StaysAs(cfg, p, bar, Trailed(cfg, p.(lastBar := bar)))
  {
  }

  lemma {:induction false} ManageDecides(cfg: Config, s: State, i: nat, ts: int)
    requires !s.threw && i < |s.open|
    ensures var t, p, found := Step(cfg, s, Event(ts, ManageOne(i))), s.open[i], ManagedBar(cfg, s.open[i], ts);
            if found == None then t == s
            else
              var bar := found.value;
              if StopDue(p, bar) then ClosedAt(s, t, i, ts, Stop, p.stop, p.stop - StopSlip(cfg, p, ts))
              else if RuleDueAtOpen(p, bar) then ClosedAt(s, t, i, ts, Rule, bar.open, LessSpread(cfg, bar.open))
              else if RuleDueAtClose(p, bar) then ClosedAt(s, t, i, ts, Rule, bar.close, LessSpread(cfg, bar.close))
              else StaysThrough(cfg, s, t, i, bar)
  {
    hide Drop, ClosedAt, Trailed, StopFill, SellFill, LessSpread, Step, Manage, StopSlip, StaysThrough;
    var p, found := s.open[i], ManagedBar(cfg, s.open[i], ts);
    ManagedStep(cfg, s, i, ts);
    if found.Some? {
      var bar := found.value;
      SlipOf(cfg, p, ts);
      SoldFor(cfg, bar.open);
      SoldFor(cfg, bar.close);
      if StopDue(p, bar) {
        DropCloses(cfg, s, i, bar, Stop, p.stop, StopFill(p.stop, p.rawEntry, cfg.sBtBps, Atr1h(cfg, p.productId, ts)));
      } else if RuleDueAtOpen(p, bar) {
        DropCloses(cfg, s, i, bar, Rule, bar.open, SellFill(bar.open, cfg.sBtBps));
      } else if RuleDueAtClose(p, bar) {
        DropCloses(cfg, s, i, bar, Rule, bar.close, SellFill(bar.close, cfg.sBtBps));
      } else {
        TrailedThrough(cfg, s, i, bar);
      }
    }
  }

  /** Position i has seen the bar and stays, its trail moved if the day asks for it; nothing else changes. */
  ghost predicate StaysThrough(cfg: Config, s: State, t: State, i: nat, bar: Bar)
    requires i < |s.open|
  {
    |t.open| == |s.open| && t == s.(open := s.open[i := t.open[i]]) && StaysAs(cfg, s.open[i], bar, t.open[i])
  }

  lemma TrailedThrough(cfg: Config, s: State, i: nat, bar: Bar)
    requires i < |s.open|
    ensures StaysThrough(cfg, s, s.(open := s.open[i := Trailed(cfg, s.open[i].(lastBar := bar))]), i, bar)
  {
    hide Trailed, StaysAs;
    TrailedStays(cfg, s.open[i], bar);
  }

  lemma SoldFor(cfg: Config, price: real)
    ensures SellFill(price, cfg.sBtBps) == LessSpread(cfg, price)
  {
  }

  lemma {:induction false} ManagedStep(cfg: Config, s: State, i: nat, ts: int)
    requires !s.threw && i < |s.open|
    ensures var p, found := s.open[i], ManagedBar(cfg, s.open[i], ts);
            var t := Step(cfg, s, Event(ts, ManageOne(i)));
            if found == None then t == s
            else
              var bar := found.value;
              && bar.ts == ts
              && t ==
                if StopDue(p, bar) then
                  Drop(cfg, s, i, bar, Stop, p.stop,
                      StopFill(p.stop, p.rawEntry, cfg.sBtBps, Atr1h(cfg, p.productId, ts)))
                else if RuleDueAtOpen(p, bar) then Drop(cfg, s, i, bar, Rule, bar.open, SellFill(bar.open, cfg.sBtBps))
                else if RuleDueAtClose(p, bar)
                then Drop(cfg, s, i, bar, Rule, bar.close, SellFill(bar.close, cfg.sBtBps))
                else s.(open := s.open[i := Trailed(cfg, p.(lastBar := bar))])
  {
    hide Drop, Trailed, StopFill, SellFill, Atr1h;
  }

  lemma SlipOf(cfg: Config, p: Position, ts: int)
    ensures StopFill(p.stop, p.rawEntry, cfg.sBtBps, Atr1h(cfg, p.productId, ts)) == p.stop - StopSlip(cfg, p, ts)
  {
  }

  lemma {:induction false} WindowDecides(cfg: Config, s: State, i: nat, ts: int)
    requires !s.threw && i < |s.open|
    ensures var t, bar := Step(cfg, s, Event(ts, Liquidate(i))), s.open[i].lastBar;
            ClosedAt(s, t, i, bar.ts, Window, bar.close, LessSpread(cfg, bar.close))
  {
    hide Drop, ClosedAt, SellFill, LessSpread;
    var bar := s.open[i].lastBar;
    SoldFor(cfg, bar.close);
    DropCloses(cfg, s, i, bar, Window, bar.close, SellFill(bar.close, cfg.sBtBps));
    assert Step(cfg, s, Event(ts, Liquidate(i))) == WindowExit(cfg, s, i);
  }

  // ----- over every run

  /** An entry as the market made it: its bar, its fill over the open by the spread, and its size. */
  ghost predicate EnteredAs(cfg: Config, productId: string, entryTs: int, rawEntry: real, fillEntry: real, units: real,
      notional: real, risk: real, stopBps: real, costBps: real) {
    var load := stopBps + costBps;
    && productId in cfg.pairs && entryTs in cfg.pairs[productId].bars
    && rawEntry == cfg.pairs[productId].bars[entryTs].open
    && fillEntry == rawEntry * (1.0 + cfg.sBtBps / 10_000.0)
    && costBps == (if cfg.costBps.Some? then cfg.costBps.value else 2.0 * (90.0 + cfg.sBtBps))
    && load > 0.0
    && 10_000.0 * risk == notional * load
    && ((risk == 60.0 && notional <= 1_500.0) || (risk <= 60.0 && notional == 1_500.0))
    && units * fillEntry == notional
  }

  /**
   * The rule exit is the one the market gives a candidate of this class, pair and signal day, for
   * its entry and its stop.
   */
  ghost predicate RuledAs(cfg: Config, c: Candidate, classId: ClassId, productId: string, signalDate: int,
      rawEntry: real,
      stopBps: real) {
    && c.classId == classId && c.productId == productId && c.signalDate == signalDate
    && rawEntry * stopBps == 10_000.0 * c.stopDistance
  }

  ghost predicate HeldAs(cfg: Config, p: Position) {
    && EnteredAs(cfg, p.productId, p.entryTs, p.rawEntry, p.fillEntry, p.units, p.notionalUsd, p.entryRiskUsd,
        p.stopBps, p.costBps)
    && p.cluster == cfg.pairs[p.productId].clusterOf(p.entryTs / 86_400)
    && p.beta == (if cfg.betaOf == None then None
                  else
                    var beta := cfg.betaOf.value(p.productId, p.entryTs / 86_400);
                    Some(if beta.Some? then beta.value else 1.0))
    && p.lastBar.ts in cfg.pairs[p.productId].bars && cfg.pairs[p.productId].bars[p.lastBar.ts] == p.lastBar
    && exists c :: RuledAs(cfg, c, p.classId, p.productId, p.signalDate, p.rawEntry, p.stopBps)
                   && p.ruleExit == cfg.ruleExit(c, p.rawEntry, p.rawEntry - c.stopDistance)
  }

  ghost predicate RuleWasDue(cfg: Config, t: Trade, bar: Bar) {
    exists c :: RuledAs(cfg, c, t.classId, t.productId, t.signalDate, t.rawEntry, t.stopBps)
                && var rule := cfg.ruleExit(c, t.rawEntry, t.rawEntry - c.stopDistance);
                   && rule.Some?
                   && if rule.value.at == AtOpen then t.exitTs == rule.value.ts && t.rawExit == bar.open
                      else t.exitTs < rule.value.ts <= t.exitTs + 900 && t.rawExit == bar.close
  }

  /** Each exit has its price on its bar, and its fill from that price. */
  ghost predicate ExitedAs(cfg: Config, t: Trade)
    requires t.productId in cfg.pairs && t.exitTs in cfg.pairs[t.productId].bars
  {
    var pair := cfg.pairs[t.productId];
    var bar := pair.bars[t.exitTs];
    match t.reason
    case Gap => t.rawExit == t.fillExit == bar.open
    case Stop =>
      && bar.low <= t.rawExit < bar.open
      && t.fillExit == t.rawExit - Max(t.rawEntry * cfg.sBtBps / 10_000.0, pair.atr1h(t.exitTs) / 10.0)
    case Rule => RuleWasDue(cfg, t, bar) && t.fillExit == LessSpread(cfg, t.rawExit)
    case Window => t.rawExit == bar.close && t.fillExit == LessSpread(cfg, t.rawExit)
  }

  ghost predicate TradedAs(cfg: Config, t: Trade) {
    && EnteredAs(cfg, t.productId, t.entryTs, t.rawEntry, t.fillEntry, t.units, t.notionalUsd, t.entryRiskUsd,
        t.stopBps, t.costBps)
    && t.exitTs in cfg.pairs[t.productId].bars && ExitedAs(cfg, t)
    && t.windowMark == (t.reason == Window) && Dollars(t)
  }

  ghost predicate AllAsMarketed(cfg: Config, s: State) {
    && (forall p :: p in s.open ==> HeldAs(cfg, p))
    && (forall t :: t in s.trades ==> TradedAs(cfg, t))
  }

  /** What an exit makes of a position, for each reason. */
  ghost predicate DueExit(cfg: Config, p: Position, bar: Bar, reason: Reason, rawExit: real, fillExit: real) {
    match reason
    case Gap => rawExit == fillExit == bar.open
    case Stop => bar.low <= rawExit < bar.open && fillExit == rawExit - StopSlip(cfg, p, bar.ts)
    case Rule =>
      && ((RuleDueAtOpen(p, bar) && rawExit == bar.open) || (RuleDueAtClose(p, bar) && rawExit == bar.close))
      && fillExit == LessSpread(cfg, rawExit)
    case Window => rawExit == bar.close && fillExit == LessSpread(cfg, rawExit)
  }

  lemma {:induction false} TradedFromHeld(cfg: Config, p: Position, t: Trade, bar: Bar)
    requires HeldAs(cfg, p) && TradeOf(p, t) && t.exitTs == bar.ts
    requires bar.ts in cfg.pairs[p.productId].bars && cfg.pairs[p.productId].bars[bar.ts] == bar
    requires DueExit(cfg, p, bar, t.reason, t.rawExit, t.fillExit)
    ensures TradedAs(cfg, t)
  {
    hide Dollars, RuledAs;
    if t.reason == Rule {
      var c :| RuledAs(cfg, c, p.classId, p.productId, p.signalDate, p.rawEntry, p.stopBps)
            && p.ruleExit == cfg.ruleExit(c, p.rawEntry, p.rawEntry - c.stopDistance);
      assert RuledAs(cfg, c, t.classId, t.productId, t.signalDate, t.rawEntry, t.stopBps);
    }
  }

  lemma {:induction false} MarketedAfterClose(cfg: Config, s: State, t: State, i: nat, bar: Bar, reason: Reason,
      rawExit: real, fillExit: real)
    requires AllAsMarketed(cfg, s) && i < |s.open| && ClosedAt(s, t, i, bar.ts, reason, rawExit, fillExit)
    requires var p := s.open[i];
             && p.productId in cfg.pairs && bar.ts in cfg.pairs[p.productId].bars
             && cfg.pairs[p.productId].bars[bar.ts] == bar && DueExit(cfg, p, bar, reason, rawExit, fillExit)
    ensures AllAsMarketed(cfg, t)
  {
    hide HeldAs, TradedAs, TradeOf, DueExit;
    var trade := t.trades[|s.trades|];
    assert s.open[i] in s.open;
    TradedFromHeld(cfg, s.open[i], trade, bar);
    assert forall p :: p in t.open ==> p in s.open;
    assert t.trades == s.trades + [trade];
  }

  /** A position just entered is as the market makes it. */
  lemma {:induction false} EntryIsMarketed(cfg: Config, s: State, t: State, ts: int, c: Candidate, q: Quote)
    requires Admits(cfg, s, t, ts, c, q)
    ensures HeldAs(cfg, NewPosition(cfg, c, ts, q))
  {
    hide FailedGates, NotionalUsd, EntryOpenRiskUsd, SizingCostBps;
    var p := NewPosition(cfg, c, ts, q);
    EntryIsSized(cfg, c, ts, q.bar);
    assert RuledAs(cfg, c, p.classId, p.productId, p.signalDate, p.rawEntry, p.stopBps);
  }

  lemma {:induction false} EntryIsSized(cfg: Config, c: Candidate, ts: int, bar: Bar)
    requires c.productId in cfg.pairs && ValidStop(bar, c.stopDistance)
    requires StopBps(bar, c.stopDistance) + CostBps(cfg) > 0.0 && BuyFill(bar.open, cfg.sBtBps) > 0.0
    requires ts in cfg.pairs[c.productId].bars && cfg.pairs[c.productId].bars[ts] == bar
    ensures var q := QuoteOf(cfg, c, ts, bar);
            && EnteredAs(cfg, c.productId, ts, bar.open, q.fillEntry, q.notional / q.fillEntry, q.notional, q.addRisk,
                q.stopBps, CostBps(cfg))
            && bar.open * q.stopBps == 10_000.0 * c.stopDistance
  {
    hide NotionalUsd, EntryOpenRiskUsd, StopBps, CostBps, BuyFill, EnteredAs;
    var fill, stopBps, cost := BuyFill(bar.open, cfg.sBtBps), StopBps(bar, c.stopDistance), CostBps(cfg);
    var notional := NotionalUsd(stopBps + cost);
    SizedInNumbers(stopBps + cost);
    UnitsOf(notional, fill);
    StopInNumbers(bar, c.stopDistance);
    BoughtFor(cfg, bar.open);
    EnteredFrom(cfg, c.productId, ts, bar, fill, notional / fill, notional, EntryOpenRiskUsd(notional, stopBps + cost),
        stopBps, cost);
  }

  lemma BoughtFor(cfg: Config, price: real)
    ensures BuyFill(price, cfg.sBtBps) == price * (1.0 + cfg.sBtBps / 10_000.0)
    ensures CostBps(cfg) == if cfg.costBps.Some? then cfg.costBps.value else 2.0 * (90.0 + cfg.sBtBps)
  {
  }

  lemma EnteredFrom(cfg: Config, productId: string, ts: int, bar: Bar, fill: real, units: real, notional: real,
      risk: real,
      stopBps: real, cost: real)
    requires productId in cfg.pairs && ts in cfg.pairs[productId].bars && cfg.pairs[productId].bars[ts] == bar
    requires fill == bar.open * (1.0 + cfg.sBtBps / 10_000.0)
    requires cost == if cfg.costBps.Some? then cfg.costBps.value else 2.0 * (90.0 + cfg.sBtBps)
    requires stopBps + cost > 0.0 && 10_000.0 * risk == notional * (stopBps + cost)
    requires (risk == 60.0 && notional <= 1_500.0) || (risk <= 60.0 && notional == 1_500.0)
    requires units * fill == notional
    ensures EnteredAs(cfg, productId, ts, bar.open, fill, units, notional, risk, stopBps, cost)
  {
  }

  lemma {:induction false} SizedInNumbers(load: real)
    requires load > 0.0
    ensures var notional := NotionalUsd(load);
            var risk := EntryOpenRiskUsd(notional, load);
            && notional > 0.0 && 10_000.0 * risk == notional * load
            && ((risk == 60.0 && notional <= 1_500.0) || (risk <= 60.0 && notional == 1_500.0))
  {
    hide NotionalUsd;
    SizeBounds(load);
  }

  lemma {:induction false} StopInNumbers(bar: Bar, stopDistance: real)
    requires ValidStop(bar, stopDistance)
    ensures bar.open * StopBps(bar, stopDistance) == 10_000.0 * stopDistance
  {
    BpsOf(bar.open, bar.open + stopDistance);
  }

  lemma {:induction false} MarketedStep(cfg: Config, s: State, e: Event)
    requires AllAsMarketed(cfg, s)
    ensures AllAsMarketed(cfg, Step(cfg, s, e))
  {
    hide HeldAs, TradedAs, ClosedAt, StaysAs, Attempt, GapExit, Manage, WindowExit, Equity, DueExit, Admits;
    var t := Step(cfg, s, e);
    if !s.threw {
      match e.action
      case CheckGap(i) =>
        if i < |s.open| {
          MarketedGap(cfg, s, i, e.ts);
        }
      case ManageOne(i) =>
        if i < |s.open| {
          MarketedManage(cfg, s, i, e.ts);
        }
      case Liquidate(i) =>
        if i < |s.open| {
          MarketedWindow(cfg, s, i, e.ts);
        }
      case TryEntry(c) =>
        AttemptAdmitsOrNot(cfg, s, c, e.ts);
        if t.open != s.open {
          var q :| Admits(cfg, s, t, e.ts, c, q);
          MarketedEntry(cfg, s, t, e.ts, c, q);
        }
      case OpenTheBar =>
      case CloseTheBar =>
    }
  }

  lemma MarketedEntry(cfg: Config, s: State, t: State, ts: int, c: Candidate, q: Quote)
    requires AllAsMarketed(cfg, s) && Admits(cfg, s, t, ts, c, q) && t.trades == s.trades
    ensures AllAsMarketed(cfg, t)
  {
    hide HeldAs, TradedAs, NewPosition, FailedGates, QuoteOf, StopBps, CostBps;
    EntryIsMarketed(cfg, s, t, ts, c, q);
    assert forall p :: p in t.open ==> p in s.open || p == NewPosition(cfg, c, ts, q);
  }

  lemma MarketedGap(cfg: Config, s: State, i: nat, ts: int)
    requires AllAsMarketed(cfg, s) && !s.threw && i < |s.open|
    ensures AllAsMarketed(cfg, Step(cfg, s, Event(ts, CheckGap(i))))
  {
    hide HeldAs, TradedAs, ClosedAt, Step, LessSpread;
    var t, p := Step(cfg, s, Event(ts, CheckGap(i))), s.open[i];
    GapDecides(cfg, s, i, ts);
    if t != s {
      var bar := cfg.pairs[p.productId].bars[ts];
      assert bar.ts == ts;
      MarketedAfterClose(cfg, s, t, i, bar, Gap, bar.open, bar.open);
    }
  }

  lemma MarketedWindow(cfg: Config, s: State, i: nat, ts: int)
    requires AllAsMarketed(cfg, s) && !s.threw && i < |s.open|
    ensures AllAsMarketed(cfg, Step(cfg, s, Event(ts, Liquidate(i))))
  {
    hide TradedAs, ClosedAt, Step, RuledAs, LessSpread;
    var bar := s.open[i].lastBar;
    assert s.open[i] in s.open;
    WindowDecides(cfg, s, i, ts);
    MarketedAfterClose(cfg, s, Step(cfg, s, Event(ts, Liquidate(i))), i, bar, Window, bar.close,
        LessSpread(cfg, bar.close));
  }

  lemma {:induction false} MarketedManage(cfg: Config, s: State, i: nat, ts: int)
    requires AllAsMarketed(cfg, s) && !s.threw && i < |s.open|
    ensures AllAsMarketed(cfg, Step(cfg, s, Event(ts, ManageOne(i))))
  {
    hide TradedAs, ClosedAt, Step, HeldAs, StaysAs, StopSlip, LessSpread;
    var t, p := Step(cfg, s, Event(ts, ManageOne(i))), s.open[i];
    var found := ManagedBar(cfg, p, ts);
    ManageDecides(cfg, s, i, ts);
    assert p in s.open;
    if found.Some? {
      var bar := found.value;
      BarIsMarketed(cfg, p, ts);
      if StopDue(p, bar) {
        MarketedAfterClose(cfg, s, t, i, bar, Stop, p.stop, p.stop - StopSlip(cfg, p, ts));
      } else if RuleDueAtOpen(p, bar) {
        MarketedAfterClose(cfg, s, t, i, bar, Rule, bar.open, LessSpread(cfg, bar.open));
      } else if RuleDueAtClose(p, bar) {
        MarketedAfterClose(cfg, s, t, i, bar, Rule, bar.close, LessSpread(cfg, bar.close));
      } else {
        assert StaysThrough(cfg, s, t, i, bar);
        StaysMarketed(cfg, p, bar, t.open[i]);
        assert forall x :: x in t.open ==> x in s.open || x == t.open[i];
      }
    }
  }

  lemma BarIsMarketed(cfg: Config, p: Position, ts: int)
    requires HeldAs(cfg, p) && ManagedBar(cfg, p, ts).Some?
    ensures var bar := ManagedBar(cfg, p, ts).value;
            && bar.ts == ts && p.productId in cfg.pairs && ts in cfg.pairs[p.productId].bars
            && cfg.pairs[p.productId].bars[ts] == bar
  {
    hide RuledAs;
  }

  lemma StaysMarketed(cfg: Config, p: Position, bar: Bar, q: Position)
    requires HeldAs(cfg, p) && StaysAs(cfg, p, bar, q)
    requires bar.ts in cfg.pairs[p.productId].bars && cfg.pairs[p.productId].bars[bar.ts] == bar
    ensures HeldAs(cfg, q)
  {
    hide EnteredAs, RuledAs, TrailDay;
  }

  /**
   * At every instant of every run each position and each closed trade is as the market made it: bars,
   * fills, size, risk, cluster, beta and rule exit at entry; price, fill and dollars at exit.
   */
  lemma {:induction false} TradesAreAsMarketed(cfg: Config, events: seq<Event>)
    ensures AllAsMarketed(cfg, Replay(cfg, START, events))
  {
    hide Step, HeldAs, TradedAs;
    if events != [] {
      var n := |events| - 1;
      TradesAreAsMarketed(cfg, events[..n]);
      MarketedStep(cfg, Replay(cfg, START, events[..n]), events[n]);
    }
  }
}
