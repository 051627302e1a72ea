/** Runs at the edge: a stop that trails into more risk than its entry, and the open-risk gate at work. */
module BookWitnesses {
  import opened Basics
  import opened Sorting
  import opened BookModel
  import opened BookRisk
  import opened BookSafety
  import opened BookAttempts

  /** The last bar of day 0, on which a class A stop is trailed. */
  const LAST_BAR := DAY - BAR

  const FIRST := "P"
  const SECOND := "Q"

  function PairOf(bar: Bar, daily: Daily): Pair {
    Pair(map[bar.ts := bar], map[0 := daily], ts => 0.0, day => "")
  }

  /** A class A candidate that enters on the last bar of day 0. */
  function Late(stopDistance: real): Candidate {
    Candidate(A, FIRST, 0, LAST_BAR, stopDistance)
  }

  /** It alone, without betas or rule exits; `low` and `daily` are its bar's low and its day's close and ATR. */
  function Market(stopDistance: real, low: real, daily: Daily, sBtBps: SpreadBps, costBps: Option<real>): Config {
    Config(map[FIRST := PairOf(Bar(LAST_BAR, 1.0, 1.0, low, 1.0), daily)], [Late(stopDistance)],
        (c, open, stop) => None, sBtBps, DAY, costBps, None, 1)
  }

  function EntryBar(cfg: Config, c: Candidate): seq<Event> {
    [Event(c.entryTs, OpenTheBar), Event(c.entryTs, TryEntry(c)), Event(c.entryTs, ManageOne(0))]
  }

  /** A candidate that a book without positions takes, and does not lose again on its entry bar. */
  ghost predicate Taken(cfg: Config, c: Candidate, bar: Bar) {
    && BarAt(cfg, c.productId, c.entryTs) == Some(bar) && bar.ts == c.entryTs
    && ValidStop(bar, c.stopDistance) && StopBps(bar, c.stopDistance) + CostBps(cfg) > 0.0
    && bar.low > bar.open - c.stopDistance
    && cfg.betaOf == None && cfg.clusterMaxOpen >= 1
    && forall open, stop :: cfg.ruleExit(c, open, stop) == None
  }

  function Entered(cfg: Config, c: Candidate, bar: Bar): Position
    requires Taken(cfg, c, bar)
  {
    FillIsPositive(cfg, bar);
    NewPosition(cfg, c, c.entryTs, QuoteOf(cfg, c, c.entryTs, bar))
  }

  lemma {:induction false} FirstPasses(cfg: Config, c: Candidate, bar: Bar)
    requires Taken(cfg, c, bar)
    ensures FailedGates(cfg, OpenBar(cfg, START, c.entryTs), c, c.entryTs, QuoteOf(cfg, c, c.entryTs, bar)) == {}
  {
    var s := OpenBar(cfg, START, c.entryTs);
    var q := QuoteOf(cfg, c, c.entryTs, bar);
    SizeBounds(q.stopBps + CostBps(cfg));
    forall g ensures g !in FailedGates(cfg, s, c, c.entryTs, q) {
      assert Equity(s, cfg.sBtBps) == 0.0;
      Passes(cfg, s, c, c.entryTs, q, g);
    }
  }

  /** The entry bar of the first candidate: it is taken, and its stop trailed. */
  lemma {:induction false} TakenAndTrailed(cfg: Config, c: Candidate, bar: Bar)
    requires Taken(cfg, c, bar)
    ensures var tried := Attempt(cfg, OpenBar(cfg, START, c.entryTs), c, c.entryTs);
            && tried.open == [Entered(cfg, c, bar)] && tried.trades == [] && !tried.threw
            && Manage(cfg, tried, 0, c.entryTs) == tried.(open := [Trailed(cfg, Entered(cfg, c, bar))])
  {
    hide FailedGates, Trailed, NotionalUsd, BuyFill, Equity;
    FillIsPositive(cfg, bar);
    FirstPasses(cfg, c, bar);
    var tried := Attempt(cfg, OpenBar(cfg, START, c.entryTs), c, c.entryTs);
    assert tried.open == [Entered(cfg, c, bar)];
    var p := Entered(cfg, c, bar);
    assert p.lastBar == bar && p.(lastBar := bar) == p;
    assert tried.open[0 := Trailed(cfg, p)] == [Trailed(cfg, p)];
  }

  lemma {:induction false} ReplayedEntry(cfg: Config, c: Candidate, bar: Bar)
    requires Taken(cfg, c, bar)
    ensures Replay(cfg, START, EntryBar(cfg, c)).open == [Trailed(cfg, Entered(cfg, c, bar))]
    ensures InOrder(EntryBar(cfg, c))
  {
    hide Attempt, OpenBar, Manage, Entered, Trailed, Taken;
    TakenAndTrailed(cfg, c, bar);
    var events := EntryBar(cfg, c);
    assert events[..2] == [events[0], events[1]] && events[..2][..1] == [events[0]] && [events[0]][..0] == [];
    assert Replay(cfg, START, [events[0]]) == OpenBar(cfg, START, c.entryTs);
    assert !OpenBar(cfg, START, c.entryTs).threw by {
      NotThrown(cfg, c.entryTs);
    }
    assert Replay(cfg, START, events[..2]) == Attempt(cfg, OpenBar(cfg, START, c.entryTs), c, c.entryTs);
  }

  lemma NotThrown(cfg: Config, ts: int)
    ensures !OpenBar(cfg, START, ts).threw
  {
  }

  lemma {:induction false} MarketTakes(stopDistance: real, low: real, daily: Daily, sBtBps: SpreadBps,
      costBps: Option<real>)
    requires 0.0 < stopDistance < 1.0 && low > 1.0 - stopDistance
    requires stopDistance * 10_000.0 + (if costBps.Some? then costBps.value else SizingCostBps(sBtBps)) > 0.0
    ensures Taken(Market(stopDistance, low, daily, sBtBps, costBps), Late(stopDistance),
            Bar(LAST_BAR, 1.0, 1.0, low, 1.0))
  {
    var cfg := Market(stopDistance, low, daily, sBtBps, costBps);
    StopInUnits(Bar(LAST_BAR, 1.0, 1.0, low, 1.0), stopDistance);
    assert forall open, stop :: cfg.ruleExit(Late(stopDistance), open, stop) == None;
  }

  lemma StopInUnits(bar: Bar, stopDistance: real)
    requires bar.open == 1.0 && ValidStop(bar, stopDistance)
    ensures StopBps(bar, stopDistance) == stopDistance * 10_000.0
  {
  }

  /** What is held after the entry bar, its stop trailed to three ATR under the day's close. */
  lemma {:induction false} HeldAfterEntry(stopDistance: real, low: real, daily: Daily, sBtBps: SpreadBps,
      costBps: Option<real>)
    returns (p: Position)
    requires 0.0 < stopDistance < 1.0 && low > 1.0 - stopDistance
    requires stopDistance * 10_000.0 + (if costBps.Some? then costBps.value else SizingCostBps(sBtBps)) > 0.0
    requires daily.close > 0.0 && daily.atr > 0.0 && daily.close - 3.0 * daily.atr > 1.0 - stopDistance
    ensures var cfg := Market(stopDistance, low, daily, sBtBps, costBps);
            var load := stopDistance * 10_000.0 + CostBps(cfg);
            && InOrder(EntryBar(cfg, Late(stopDistance)))
            && Replay(cfg, START, EntryBar(cfg, Late(stopDistance))).open == [p]
            && p.stop == daily.close - 3.0 * daily.atr && p.stopMoved && p.productId == FIRST && p.classId == A
            && p.fillEntry == BuyFill(1.0, sBtBps) && p.units == NotionalUsd(load) / p.fillEntry
            && p.entryRiskUsd == EntryOpenRiskUsd(NotionalUsd(load), load)
  {
    hide NotionalUsd, BuyFill, EntryOpenRiskUsd, SizingCostBps, Replay, EntryBar;
    var cfg := Market(stopDistance, low, daily, sBtBps, costBps);
    var bar := Bar(LAST_BAR, 1.0, 1.0, low, 1.0);
    MarketTakes(stopDistance, low, daily, sBtBps, costBps);
    StopInUnits(bar, stopDistance);
    ReplayedEntry(cfg, Late(stopDistance), bar);
    p := Trailed(cfg, Entered(cfg, Late(stopDistance), bar));
  }

  /** Sized without any cost, a stop that trails up to its fill risks nine times what the entry did. */
  lemma {:induction false} UncoveredCanExceed() returns (cfg: Config, events: seq<Event>, p: Position)
    ensures cfg.sBtBps == 0.0 && CostBps(cfg) == 0.0
    ensures InOrder(events) && p in Replay(cfg, START, events).open
    ensures p.stopMoved && p.stop == p.fillEntry && LiveRisk(p, cfg.sBtBps) == 13.5 && p.entryRiskUsd == 1.5
  {
    hide Replay, EntryBar, InOrder;
    var daily := Daily(1.3, 1.0, 0.1);
    p := HeldAfterEntry(0.001, 0.9995, daily, 0.0, Some(0.0));
    cfg := Market(0.001, 0.9995, daily, 0.0, Some(0.0));
    events := EntryBar(cfg, Late(0.001));
  }

  /**
   * Sized at two exit legs of -10 bps each, a stop that trails by a ten-thousandth of the price risks
   * more than the entry did.
   */
  lemma {:induction false} NegativeLegCanExceed() returns (cfg: Config, events: seq<Event>, p: Position)
    ensures cfg.sBtBps == -100.0 && CostBps(cfg) == SizingCostBps(cfg.sBtBps)
    ensures InOrder(events) && p in Replay(cfg, START, events).open
    ensures p.stopMoved && p.stop < p.fillEntry && LiveRisk(p, cfg.sBtBps) > p.entryRiskUsd
  {
    hide Replay, EntryBar, InOrder;
    var daily := Daily(0.4001, 0.2, 0.1);
    p := HeldAfterEntry(0.9, 0.2, daily, -100.0, None);
    cfg := Market(0.9, 0.2, daily, -100.0, None);
    events := EntryBar(cfg, Late(0.9));
  }

  // ----- the open-risk gate at work

  /** Another candidate, a bar later, on another pair. */
  const NEXT := Candidate(B, SECOND, 1, DAY, 0.1)

  const FAR := Daily(100.0, 1.0, 0.1)

  /** Both, at the default cost on no spread; the first one's day closes at a hundred times its fill. */
  function TwoPairs(): Config {
    Config(
      map[FIRST := PairOf(Bar(LAST_BAR, 1.0, 1.0, 0.9995, 1.0), FAR),
          SECOND := PairOf(Bar(DAY, 1.0, 1.0, 1.0, 1.0), FAR)],
      [Late(0.001), NEXT], (c, open, stop) => None, 0.0, DAY + BAR, None, None, 1)
  }

  lemma DueOne(cfg: Config, ts: int, c: Candidate)
    requires EnteringAt(cfg.candidates, ts) == [c]
    ensures Due(cfg, ts) == [c]
  {
    assert [c][..0] == [];
    assert Insert(c, [], RanksBefore) == [c];
  }

  lemma {:induction false} TwoDue()
    ensures Due(TwoPairs(), LAST_BAR) == [Late(0.001)] && Due(TwoPairs(), DAY) == [NEXT]
    ensures StartTs(TwoPairs().candidates, TwoPairs().endTs) == LAST_BAR
  {
    hide Due;
    var c, all := Late(0.001), TwoPairs().candidates;
    assert all[..1] == [c] && [c][..0] == [];
    assert EnteringAt([c], LAST_BAR) == [c] && EnteringAt([c], DAY) == [];
    assert EnteringAt(all, LAST_BAR) == [c] + [] == [c] && EnteringAt(all, DAY) == [] + [NEXT] == [NEXT];
    DueOne(TwoPairs(), LAST_BAR, c);
    DueOne(TwoPairs(), DAY, NEXT);
    assert StartTs([c], TwoPairs().endTs) == LAST_BAR;
  }

  /** The bar of the first entry, phase by phase. */
  lemma {:induction false} FirstBar(cfg: Config, c: Candidate, bar: Bar)
    requires Taken(cfg, c, bar) && Due(cfg, c.entryTs) == [c]
    ensures var next := BarStep(cfg, START, c.entryTs);
            next.open == [Trailed(cfg, Entered(cfg, c, bar))] && !next.threw
  {
    hide Attempt, Manage, Due, Trailed, Entered, Equity, Taken;
    TakenAndTrailed(cfg, c, bar);
    NotThrown(cfg, c.entryTs);
    var begun := OpenBar(cfg, START, c.entryTs);
    assert begun.open == [] && GapPhase(cfg, begun, c.entryTs, 0) == begun;
    var tried := Attempt(cfg, begun, c, c.entryTs);
    assert [c][1..] == [] && EntryPhase(cfg, tried, [], c.entryTs) == tried;
    assert EntryPhase(cfg, begun, [c], c.entryTs) == tried;
    var managed := Manage(cfg, tried, 0, c.entryTs);
    assert ManagePhase(cfg, managed, c.entryTs, 1) == managed;
  }

  /** A bar on which the held pair has no bar, and a candidate of another pair enters. */
  lemma {:induction false} NextBar(cfg: Config, s: State, d: Candidate)
    requires |s.open| == 1 && !s.threw && BarAt(cfg, s.open[0].productId, d.entryTs) == None
    requires Due(cfg, d.entryTs) == [d]
    ensures BarStep(cfg, s, d.entryTs).tally == Attempt(cfg, OpenBar(cfg, s, d.entryTs), d, d.entryTs).tally
    ensures BarStep(cfg, s, d.entryTs).threw == Attempt(cfg, OpenBar(cfg, s, d.entryTs), d, d.entryTs).threw
  {
    hide Attempt, Manage, Due, Equity, ManagePhase;
    var begun := OpenBar(cfg, s, d.entryTs);
    assert GapExit(cfg, begun, 0, d.entryTs) == begun;
    assert GapPhase(cfg, begun, d.entryTs, 1) == begun && GapPhase(cfg, begun, d.entryTs, 0) == begun;
    var tried := Attempt(cfg, begun, d, d.entryTs);
    assert [d][1..] == [] && EntryPhase(cfg, tried, [], d.entryTs) == tried;
    assert EntryPhase(cfg, begun, [d], d.entryTs) == tried;
    ManageKeepsTally(cfg, tried, d.entryTs, 0);
  }

  /** A candidate that is quoted is rejected for open risk when what is held already risks the cap. */
  lemma {:induction false} RejectedForRisk(cfg: Config, s: State, d: Candidate, bar: Bar)
    requires BarAt(cfg, d.productId, d.entryTs) == Some(bar) && ValidStop(bar, d.stopDistance)
    requires StopBps(bar, d.stopDistance) + CostBps(cfg) > 0.0
    requires |s.open| == 1 && !s.threw && LiveRisk(s.open[0], cfg.sBtBps) > OPEN_RISK_CAP_USD
    ensures OpenRisk in Attempt(cfg, s, d, d.entryTs).tally.hits && !Attempt(cfg, s, d, d.entryTs).threw
  {
    hide LiveRisk, NewPosition, NotionalUsd, EntryOpenRiskUsd, BuyFill, Count, Equity;
    FillIsPositive(cfg, bar);
    SizeBounds(StopBps(bar, d.stopDistance) + CostBps(cfg));
    var q := QuoteOf(cfg, d, d.entryTs, bar);
    assert s.open == [s.open[0]];
    SumOne(s.open[0], RiskOf(cfg.sBtBps));
    Passes(cfg, s, d, d.entryTs, q, OpenRisk);
  }

  lemma {:induction false} RunawayHeld() returns (p: Position)
    ensures Taken(TwoPairs(), Late(0.001), Bar(LAST_BAR, 1.0, 1.0, 0.9995, 1.0))
    ensures p == Trailed(TwoPairs(), Entered(TwoPairs(), Late(0.001), Bar(LAST_BAR, 1.0, 1.0, 0.9995, 1.0)))
    ensures p.productId == FIRST && LiveRisk(p, 0.0) > OPEN_RISK_CAP_USD
  {
    var bar := Bar(LAST_BAR, 1.0, 1.0, 0.9995, 1.0);
    StopInUnits(bar, 0.001);
    p := Trailed(TwoPairs(), Entered(TwoPairs(), Late(0.001), bar));
    assert p.units == 1_500.0 && p.stop == 99.7;
  }

  /** Sized as by default, a run does reject for open risk once a stop has run away. */
  lemma {:induction false} OpenRiskCanFire()
    ensures CoversBothLegs(TwoPairs()) && OpenRisk in Run(TwoPairs()).tally.hits
  {
    hide BarStep, Attempt, Due, Taken, Entered, Trailed, StartTs, LiveRisk, ValidStop, StopBps;
    var cfg, c := TwoPairs(), Late(0.001);
    var bar := Bar(LAST_BAR, 1.0, 1.0, 0.9995, 1.0);
    TwoDue();
    var p := RunawayHeld();
    FirstBar(cfg, c, bar);
    var s := BarStep(cfg, START, LAST_BAR);
    SecondIsQuoted();
    RejectedForRisk(cfg, OpenBar(cfg, s, DAY), NEXT, Bar(DAY, 1.0, 1.0, 1.0, 1.0));
    NextBar(cfg, s, NEXT);
    var t := BarStep(cfg, s, DAY);
    assert RunFrom(cfg, t, DAY + BAR) == t && RunFrom(cfg, s, DAY) == t && RunFrom(cfg, START, LAST_BAR) == t;
    WindowKeepsTally(cfg, t);
  }

  lemma SecondIsQuoted()
    ensures var bar := Bar(DAY, 1.0, 1.0, 1.0, 1.0);
            && BarAt(TwoPairs(), SECOND, DAY) == Some(bar) && BarAt(TwoPairs(), FIRST, DAY) == None
            && ValidStop(bar, 0.1) && StopBps(bar, 0.1) + CostBps(TwoPairs()) > 0.0
  {
    StopInUnits(Bar(DAY, 1.0, 1.0, 1.0, 1.0), 0.1);
  }
}
