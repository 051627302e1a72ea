/** One long trade on 15-minute bars, and the proof that the book carries out the same trade. */
module WalkLong {
  import opened Basics
  import opened Sorting
  import opened BookModel
  import opened BookRisk
  import opened BookSafety

  datatype Leg = Leg(reason: Reason, exitTs: int, rawEntry: real, rawExit: real, fillEntry: real, fillExit: real,
                     grossBps: real, netBps: real)

  datatype Terms = Terms(entryTs: int, endTs: int, stop: real, sBtBps: SpreadBps, atr1h: int -> real,
      ruleExitTs: Option<int>)

  function LegOf(reason: Reason, exitTs: int, rawEntry: real, rawExit: real, fillExit: real, sBtBps: SpreadBps): Leg
    requires rawEntry > 0.0
  {
    var fillEntry := BuyFill(rawEntry, sBtBps);
    BuyFillPositive(rawEntry, sBtBps);
    Leg(reason, exitTs, rawEntry, rawExit, fillEntry, fillExit, GrossBps(rawEntry, rawExit),
        NetBps(fillEntry, fillExit))
  }

  lemma BuyFillPositive(price: real, sBtBps: SpreadBps)
    requires price > 0.0
    ensures BuyFill(price, sBtBps) > 0.0
  {
    var scale := 1.0 + sBtBps / 10_000.0;
    assert scale > 0.0;
    ProductPositive(price, scale);
  }

  /** The exit this bar forces, if any. */
  function ExitOn(bar: Bar, rawEntry: real, t: Terms): Option<Leg>
    requires rawEntry > 0.0
  {
    if IntrabarFill(bar, t.stop, None).StopAt? then
      if bar.open <= t.stop
      then Some(LegOf(Gap, bar.ts, rawEntry, bar.open, bar.open, t.sBtBps))
      else Some(LegOf(Stop, bar.ts, rawEntry, t.stop, StopFill(t.stop, rawEntry, t.sBtBps, t.atr1h(bar.ts)), t.sBtBps))
    else if t.ruleExitTs == Some(bar.ts) then
      Some(LegOf(Rule, bar.ts, rawEntry, bar.open, SellFill(bar.open, t.sBtBps), t.sBtBps))
    else None
  }

  /** The mark at the end of the window. */
  function MarkAt(last: Option<Bar>, rawEntry: real, t: Terms): Option<Leg>
    requires rawEntry > 0.0
  {
    if last == None || last.value.close <= 0.0 then None
    else
      Some(LegOf(if t.ruleExitTs.Some? then Rule else Window, last.value.ts, rawEntry, last.value.close,
                 SellFill(last.value.close, t.sBtBps), t.sBtBps))
  }

  function WalkFrom(bars: seq<Bar>, i: nat, last: Option<Bar>, rawEntry: real, t: Terms): Option<Leg>
    requires i <= |bars| && rawEntry > 0.0
    decreases |bars| - i
  {
    if i == |bars| || bars[i].ts >= t.endTs then MarkAt(last, rawEntry, t)
    else
      var exit := ExitOn(bars[i], rawEntry, t);
      if exit.Some? then exit else WalkFrom(bars, i + 1, Some(bars[i]), rawEntry, t)
  }

  function IndexOf(bars: seq<Bar>, ts: int): (i: nat)
    ensures i <= |bars|
    ensures i < |bars| ==> bars[i].ts == ts
    ensures forall k :: 0 <= k < i ==> bars[k].ts != ts
  {
    if bars == [] || bars[0].ts == ts then 0
    else
      var rest := IndexOf(bars[1..], ts);
      assert forall k :: 0 < k <= rest && k < |bars| ==> bars[k] == bars[1..][k - 1];
      1 + rest
  }

  function Walk(bars: seq<Bar>, t: Terms): Option<Leg> {
    var start := IndexOf(bars, t.entryTs);
    if start == |bars| then None
    else
      var entry := bars[start];
      if entry.open <= 0.0 || t.stop <= 0.0 || t.stop >= entry.open then None
      else WalkFrom(bars, start, None, entry.open, t)
  }

  method WalkOneTrade(bars: seq<Bar>, t: Terms) returns (leg: Option<Leg>)
    ensures leg == Walk(bars, t)
  {
    var start := IndexOf(bars, t.entryTs);
    if start == |bars| {
      return None;
    }
    var rawEntry := bars[start].open;
    if rawEntry <= 0.0 || t.stop <= 0.0 || t.stop >= rawEntry {
      return None;
    }
    var last := None;
    var i := start;
    while i < |bars| && bars[i].ts < t.endTs
      invariant start <= i <= |bars|
      invariant WalkFrom(bars, i, last, rawEntry, t) == Walk(bars, t)
    {
      var bar := bars[i];
      last := Some(bar);
      if IntrabarFill(bar, t.stop, None).StopAt? {
        var gapped := bar.open <= t.stop;
        var deduction := StopFill(t.stop, rawEntry, t.sBtBps, t.atr1h(bar.ts));
        var fillExit := if gapped then bar.open else deduction;
        return Some(LegOf(if gapped then Gap else Stop, bar.ts, rawEntry, if gapped then bar.open else t.stop,
            fillExit, t.sBtBps));
      }
      if t.ruleExitTs == Some(bar.ts) {
        return Some(LegOf(Rule, bar.ts, rawEntry, bar.open, SellFill(bar.open, t.sBtBps), t.sBtBps));
      }
      i := i + 1;
    }
    leg := MarkAt(last, rawEntry, t);
  }

  // ----- what the walk means

  /** Bar i ends the trade: it opens at or under the stop, trades at it, or is the rule's bar. */
  predicate Ends(bars: seq<Bar>, i: nat, t: Terms)
    requires i < |bars|
  {
    bars[i].open <= t.stop || bars[i].low <= t.stop || t.ruleExitTs == Some(bars[i].ts)
  }

  /** The leg from `entry` out at these prices: fills, and returns in bps of the prices and of the fills. */
  ghost predicate LegIs(leg: Leg, entry: real, exitTs: int, reason: Reason, rawExit: real, fillExit: real, s: real) {
    && leg.exitTs == exitTs && leg.reason == reason && leg.rawEntry == entry && leg.rawExit == rawExit
    && leg.fillExit == fillExit && leg.fillEntry == entry * (1.0 + s / 10_000.0)
    && entry * leg.grossBps == 10_000.0 * (rawExit - entry)
    && leg.fillEntry * (leg.netBps + 180.0) == 10_000.0 * (fillExit - leg.fillEntry)
  }

  ghost function LessSpread(price: real, s: real): real {
    price * (1.0 - s / 10_000.0)
  }

  /** Under the stop by the larger of the spread on the entry and a tenth of the ATR. */
  ghost function StopLess(stop: real, entry: real, s: real, atr: real): real {
    stop - Max(entry * s / 10_000.0, atr / 10.0)
  }

  /**
   * How bar i ends the trade: at its open when that is at or under the stop, else under the stop by
   * the slip, else by rule.
   */
  ghost predicate EndsAsLeg(leg: Leg, bars: seq<Bar>, i: nat, entry: real, t: Terms)
    requires i < |bars|
  {
    var bar := bars[i];
    if bar.open <= t.stop then LegIs(leg, entry, bar.ts, Gap, bar.open, bar.open, t.sBtBps)
    else if bar.low <= t.stop then
      LegIs(leg, entry, bar.ts, Stop, t.stop,
          StopLess(t.stop, entry, t.sBtBps, t.atr1h(bar.ts)), t.sBtBps)
    else LegIs(leg, entry, bar.ts, Rule, bar.open, LessSpread(bar.open, t.sBtBps), t.sBtBps)
  }

  lemma {:induction false} LegOfIs(reason: Reason, exitTs: int, entry: real, rawExit: real, fillExit: real,
      s: SpreadBps)
    requires entry > 0.0
    ensures LegIs(LegOf(reason, exitTs, entry, rawExit, fillExit, s), entry, exitTs, reason, rawExit, fillExit, s)
  {
    BuyFillPositive(entry, s);
    var fill := BuyFill(entry, s);
    GrossInFull(entry, rawExit);
    QuotientTimes(fillExit - fill, fill);
    InFull(fill, (fillExit - fill) / fill, NetBps(fill, fillExit));
  }

  lemma SoldFor(price: real, s: real)
    ensures SellFill(price, s) == LessSpread(price, s)
  {
  }

  lemma GrossInFull(entry: real, exit: real)
    requires entry > 0.0
    ensures entry * GrossBps(entry, exit) == 10_000.0 * (exit - entry)
  {
    QuotientTimes(exit - entry, entry);
    assert entry * ((exit - entry) / entry * 10_000.0) == entry * ((exit - entry) / entry) * 10_000.0;
  }

  lemma InFull(fill: real, ratio: real, net: real)
    requires net == ratio * 10_000.0 - 90.0 - 90.0
    ensures fill * (net + 180.0) == 10_000.0 * (fill * ratio)
  {
  }

  lemma {:induction false} ExitMeans(bars: seq<Bar>, i: nat, entry: real, t: Terms)
    requires i < |bars| && entry > 0.0
    ensures ExitOn(bars[i], entry, t).Some? <==> Ends(bars, i, t)
    ensures Ends(bars, i, t) ==> EndsAsLeg(ExitOn(bars[i], entry, t).value, bars, i, entry, t)
  {
    hide LegOf, LegIs, LessSpread, StopLess, SellFill, StopFill;
    var bar := bars[i];
    LegOfIs(Gap, bar.ts, entry, bar.open, bar.open, t.sBtBps);
    StopPrice(t.stop, entry, t.sBtBps, t.atr1h(bar.ts));
    LegOfIs(Stop, bar.ts, entry, t.stop, StopFill(t.stop, entry, t.sBtBps, t.atr1h(bar.ts)), t.sBtBps);
    SoldFor(bar.open, t.sBtBps);
    LegOfIs(Rule, bar.ts, entry, bar.open, SellFill(bar.open, t.sBtBps), t.sBtBps);
  }

  lemma StopPrice(stop: real, entry: real, s: real, atr: real)
    requires entry > 0.0
    ensures StopFill(stop, entry, s, atr) == StopLess(stop, entry, s, atr)
  {
  }

  /** No bar from `start` on ends it before bar k, and all of them are before the end of the window. */
  ghost predicate Quiet(bars: seq<Bar>, start: nat, k: nat, t: Terms) {
    k <= |bars| && forall i :: start <= i < k ==> bars[i].ts < t.endTs && !Ends(bars, i, t)
  }

  /** At the end: sold at the last close less the spread, or nothing when there is no such close. */
  ghost predicate MarkedOut(leg: Option<Leg>, bars: seq<Bar>, start: nat, k: nat, entry: real, t: Terms)
    requires start <= k <= |bars|
  {
    if k == start || bars[k - 1].close <= 0.0 then leg == None
    else
      && leg.Some?
      && var bar := bars[k - 1];
         LegIs(leg.value, entry, bar.ts, if t.ruleExitTs.Some? then Rule else Window, bar.close,
             LessSpread(bar.close, t.sBtBps), t.sBtBps)
  }

  lemma {:induction false} WalkFromMeans(bars: seq<Bar>, start: nat, i: nat, entry: real, t: Terms) returns (k: nat)
    requires start <= i <= |bars| && entry > 0.0 && Quiet(bars, start, i, t)
    ensures start <= k && Quiet(bars, start, k, t)
    ensures var leg := WalkFrom(bars, i, if i == start then None else Some(bars[i - 1]), entry, t);
            if k < |bars| && bars[k].ts < t.endTs
            then leg.Some? && Ends(bars, k, t) && EndsAsLeg(leg.value, bars, k, entry, t)
            else MarkedOut(leg, bars, start, k, entry, t)
    decreases |bars| - i
  {
    hide ExitOn, EndsAsLeg, LegIs, LegOf, Ends, LessSpread, SellFill;
    if i == |bars| || bars[i].ts >= t.endTs {
      k := i;
      if i > start {
        var bar := bars[i - 1];
        SoldFor(bar.close, t.sBtBps);
        LegOfIs(if t.ruleExitTs.Some? then Rule else Window, bar.ts, entry, bar.close, SellFill(bar.close, t.sBtBps),
            t.sBtBps);
      }
    } else {
      ExitMeans(bars, i, entry, t);
      if Ends(bars, i, t) {
        k := i;
      } else {
        k := WalkFromMeans(bars, start, i + 1, entry, t);
      }
    }
  }

  /**
   * The walk starts at the first bar of the entry time, with a stop between nothing and its open. It
   * ends on the first bar from there on that ends it, as that bar does, and otherwise is marked out
   * at the last close before the end of the window.
   */
  lemma {:induction false} WalkIsFirstEnd(bars: seq<Bar>, t: Terms) returns (start: nat, k: nat)
    ensures start <= |bars| && forall i :: 0 <= i < start ==> bars[i].ts != t.entryTs
    ensures start < |bars| ==> bars[start].ts == t.entryTs
    ensures var leg := Walk(bars, t);
            if start == |bars| || bars[start].open <= 0.0 || t.stop <= 0.0 || t.stop >= bars[start].open
            then leg == None
            else
              && start <= k && Quiet(bars, start, k, t)
              && if k < |bars| && bars[k].ts < t.endTs
                 then leg.Some? && Ends(bars, k, t) && EndsAsLeg(leg.value, bars, k, bars[start].open, t)
                 else MarkedOut(leg, bars, start, k, bars[start].open, t)
  {
    hide WalkFrom, EndsAsLeg, MarkedOut, Ends;
    start, k := IndexOf(bars, t.entryTs), 0;
    if start < |bars| && bars[start].open > 0.0 && 0.0 < t.stop < bars[start].open {
      k := WalkFromMeans(bars, start, start, bars[start].open, t);
    }
  }

  // ----- the book on one candidate

  ghost predicate Ascending(bars: seq<Bar>) {
    forall i, j :: 0 <= i < j < |bars| ==> bars[i].ts < bars[j].ts
  }

  /** The pair's bars are exactly `bars`, on the 15-minute grid of the entry. */
  ghost predicate Holds(m: map<int, Bar>, bars: seq<Bar>, entryTs: int) {
    && Ascending(bars)
    && (forall i :: 0 <= i < |bars| ==> bars[i].ts in m && m[bars[i].ts] == bars[i])
    && (forall ts :: ts in m ==> m[ts] in bars && m[ts].ts == ts)
    && (forall i :: 0 <= i < |bars| ==> (bars[i].ts - entryTs) % BAR == 0)
    && (forall i :: 0 <= i < |bars| ==> bars[i].close > 0.0)
  }

  /** One class B candidate, no beta, room in its cluster, and any rule exit at the open. */
  ghost predicate Solo(cfg: Config, c: Candidate, bars: seq<Bar>) {
    && cfg.candidates == [c] && c.classId == B
    && cfg.betaOf == None && cfg.clusterMaxOpen >= 1
    && c.productId in cfg.pairs && Holds(cfg.pairs[c.productId].bars, bars, c.entryTs)
    && forall open, stop :: cfg.ruleExit(c, open, stop).Some? ==> cfg.ruleExit(c, open, stop).value.at == AtOpen
  }

  function TermsOf(cfg: Config, c: Candidate, bars: seq<Bar>): Terms
    requires c.productId in cfg.pairs
  {
    var i := IndexOf(bars, c.entryTs);
    var open := if i < |bars| then bars[i].open else 0.0;
    var rule := cfg.ruleExit(c, open, open - c.stopDistance);
    Terms(c.entryTs, cfg.endTs, open - c.stopDistance, cfg.sBtBps, cfg.pairs[c.productId].atr1h,
          if rule.Some? then Some(rule.value.ts) else None)
  }

  /** Everything but the label of a trade that was still open at the end. */
  ghost predicate Agrees(t: Trade, leg: Leg) {
    && t.exitTs == leg.exitTs && t.rawEntry == leg.rawEntry && t.rawExit == leg.rawExit
    && t.fillEntry == leg.fillEntry && t.fillExit == leg.fillExit
    && t.grossBps == leg.grossBps && t.netBps == leg.netBps
    && (t.reason == leg.reason || (t.reason == Window && leg.reason == Rule))
  }

  /** The trades are the walk's one, or none when it has none. */
  ghost predicate IsOnly(trades: seq<Trade>, leg: Option<Leg>) {
    if leg.Some? then |trades| == 1 && Agrees(trades[0], leg.value) else trades == []
  }

  function Finish(cfg: Config, s: State, ts: int): State {
    var end := RunFrom(cfg, s, ts);
    if end.threw then end else WindowPhase(cfg, end)
  }

  lemma NoneDue(cfg: Config, c: Candidate, ts: int)
    requires cfg.candidates == [c]
    ensures Due(cfg, ts) == if ts == c.entryTs then [c] else []
  {
    assert [c][..0] == [];
    assert EnteringAt([c], ts) == if ts == c.entryTs then [c] else [];
    assert Insert(c, [], RanksBefore) == [c];
  }

  /** An empty book with nobody left to enter ends as it stands. */
  lemma {:induction false} EmptyBookStays(cfg: Config, c: Candidate, s: State, ts: int)
    requires cfg.candidates == [c] && c.entryTs < ts && s.open == [] && !s.threw
    ensures Finish(cfg, s, ts).trades == s.trades && Finish(cfg, s, ts).open == [] && !Finish(cfg, s, ts).threw
    decreases cfg.endTs - ts
  {
    if ts < cfg.endTs {
      NoneDue(cfg, c, ts);
      EmptyBookStays(cfg, c, BarStep(cfg, s, ts), ts + BAR);
    }
  }

  /** The position the walk's terms describe, having last seen `last`. */
  ghost predicate Carries(cfg: Config, c: Candidate, p: Position, rawEntry: real, t: Terms, last: Bar) {
    && rawEntry > 0.0
    && p.classId == B && p.productId == c.productId && p.rawEntry == rawEntry
        && p.fillEntry == BuyFill(rawEntry, cfg.sBtBps)
    && p.stop == t.stop && p.lastBar == last
    && (p.ruleExit.Some? ==> p.ruleExit.value.at == AtOpen)
    && t.ruleExitTs == (if p.ruleExit.Some? then Some(p.ruleExit.value.ts) else None)
    && t.sBtBps == cfg.sBtBps && t.endTs == cfg.endTs
    && c.productId in cfg.pairs && t.atr1h == cfg.pairs[c.productId].atr1h
  }

  /** The book holding p has closed it as `leg` says. */
  ghost predicate ClosedAs(s: State, next: State, leg: Leg) {
    && next.open == [] && next.threw == s.threw
    && |next.trades| == |s.trades| + 1 && next.trades[..|s.trades|] == s.trades
    && Agrees(next.trades[|s.trades|], leg)
  }

  lemma DropAsLeg(cfg: Config, s: State, p: Position, bar: Bar, reason: Reason, named: Reason, rawExit: real,
      fillExit: real)
    requires s.open == [p] && p.fillEntry == BuyFill(p.rawEntry, cfg.sBtBps)
    requires reason == named || (reason == Window && named == Rule)
    ensures ClosedAs(s, Drop(cfg, s, 0, bar, reason, rawExit, fillExit),
                     LegOf(named, bar.ts, p.rawEntry, rawExit, fillExit, cfg.sBtBps))
  {
    assert Without(s.open, 0) == [];
  }

  lemma ManageAsWalk(cfg: Config, c: Candidate, s: State, p: Position, rawEntry: real, t: Terms, bar: Bar)
    requires s.open == [p] && Carries(cfg, c, p, rawEntry, t, p.lastBar)
    requires bar.open > t.stop
    requires p.lastBar == bar || (p.lastBar.ts != bar.ts && BarAt(cfg, c.productId, bar.ts) == Some(bar))
    ensures var exit := ExitOn(bar, rawEntry, t);
            var next := Manage(cfg, s, 0, bar.ts);
            && (exit.Some? ==> ClosedAs(s, next, exit.value))
            && (exit == None ==> next == s.(open := [p.(lastBar := bar)]))
  {
    if IntrabarFill(bar, t.stop, None).StopAt? {
      DropAsLeg(cfg, s, p, bar, Stop, Stop, p.stop,
          StopFill(p.stop, p.rawEntry, cfg.sBtBps, Atr1h(cfg, p.productId, bar.ts)));
    } else if t.ruleExitTs == Some(bar.ts) {
      DropAsLeg(cfg, s, p, bar, Rule, Rule, bar.open, SellFill(bar.open, cfg.sBtBps));
    } else {
      assert s.open[0 := p.(lastBar := bar)] == [p.(lastBar := bar)];
    }
  }

  lemma PhasesOfOne(cfg: Config, s: State, ts: int)
    requires |s.open| == 1
    ensures |Manage(cfg, s, 0, ts).open| <= 1 && ManagePhase(cfg, s, ts, 0) == Manage(cfg, s, 0, ts)
    ensures |GapExit(cfg, s, 0, ts).open| <= 1 && GapPhase(cfg, s, ts, 0) == GapExit(cfg, s, 0, ts)
  {
    hide Manage, GapExit;
    SizeOfOne(cfg, s, ts);
    PhaseEnds(cfg, Manage(cfg, s, 0, ts), ts);
    PhaseEnds(cfg, GapExit(cfg, s, 0, ts), ts);
  }

  lemma PhaseEnds(cfg: Config, s: State, ts: int)
    ensures |s.open| <= 1 ==> ManagePhase(cfg, s, ts, |s.open|) == s && GapPhase(cfg, s, ts, |s.open|) == s
  {
  }

  lemma SizeOfOne(cfg: Config, s: State, ts: int)
    requires |s.open| == 1
    ensures |Manage(cfg, s, 0, ts).open| <= 1
    ensures |GapExit(cfg, s, 0, ts).open| <= 1
  {
    hide StopFill, SellFill, Drop, Trailed, IntrabarFill;
    forall bar, reason, rawExit, fillExit ensures |Drop(cfg, s, 0, bar, reason, rawExit, fillExit).open| == 0 {
      DropEmpties(cfg, s, bar, reason, rawExit, fillExit);
    }
  }

  lemma DropEmpties(cfg: Config, s: State, bar: Bar, reason: Reason, rawExit: real, fillExit: real)
    requires |s.open| == 1
    ensures |Drop(cfg, s, 0, bar, reason, rawExit, fillExit).open| == 0
  {
    hide CloseTrade, Advance, Equity, PairPnl;
  }

  lemma BarAtIndex(m: BarMap, bars: seq<Bar>, entryTs: int, i: nat, ts: int)
    requires Holds(m, bars, entryTs) && i <= |bars|
    requires i > 0 ==> bars[i - 1].ts < ts
    requires i < |bars| ==> ts <= bars[i].ts
    ensures ts in m <==> i < |bars| && bars[i].ts == ts
    ensures ts in m ==> m[ts] == bars[i]
  {
    if ts in m {
      var k :| 0 <= k < |bars| && bars[k] == m[ts];
    }
  }

  /** The gap check, with one position and its bar in hand. */
  lemma GapAsWalk(cfg: Config, c: Candidate, s: State, p: Position, rawEntry: real, t: Terms, bar: Bar)
    requires s.open == [p] && Carries(cfg, c, p, rawEntry, t, p.lastBar)
    requires BarAt(cfg, c.productId, bar.ts) == Some(bar)
    ensures bar.open <= t.stop ==>
      ExitOn(bar, rawEntry, t).Some? && ClosedAs(s, GapExit(cfg, s, 0, bar.ts), ExitOn(bar, rawEntry, t).value)
    ensures bar.open > t.stop ==> GapExit(cfg, s, 0, bar.ts) == s
  {
    if bar.open <= t.stop {
      DropAsLeg(cfg, s, p, bar, Gap, Gap, bar.open, bar.open);
    }
  }

  /** One later bar, start to finish. */
  lemma BarAsWalk(cfg: Config, c: Candidate, s: State, p: Position, rawEntry: real, t: Terms, bar: Bar)
    requires cfg.candidates == [c] && bar.ts != c.entryTs
    requires s.open == [p] && !s.threw && Carries(cfg, c, p, rawEntry, t, p.lastBar)
    requires p.lastBar.ts != bar.ts && BarAt(cfg, c.productId, bar.ts) == Some(bar)
    ensures var exit := ExitOn(bar, rawEntry, t);
            var next := BarStep(cfg, s, bar.ts);
            && (exit.Some? ==> ClosedAs(s, next, exit.value))
            && (exit == None ==> next.open == [p.(lastBar := bar)] && next.trades == s.trades && !next.threw)
  {
    var ts := bar.ts;
    NoneDue(cfg, c, ts);
    var begun := OpenBar(cfg, s, ts);
    GapAsWalk(cfg, c, begun, p, rawEntry, t, bar);
    PhasesOfOne(cfg, begun, ts);
    if bar.open > t.stop {
      ManageAsWalk(cfg, c, begun, p, rawEntry, t, bar);
    }
  }

  lemma QuietBar(cfg: Config, c: Candidate, s: State, p: Position, ts: int)
    requires cfg.candidates == [c] && ts != c.entryTs
    requires s.open == [p] && !s.threw && p.lastBar.ts != ts && BarAt(cfg, p.productId, ts) == None
    ensures var next := BarStep(cfg, s, ts); next.open == s.open && next.trades == s.trades && !next.threw
  {
    NoneDue(cfg, c, ts);
    PhasesOfOne(cfg, OpenBar(cfg, s, ts), ts);
  }

  /** The run ends flat, with one more trade, which is the walk's. */
  ghost predicate EndsAs(s: State, end: State, leg: Option<Leg>) {
    leg.Some? && ClosedAs(s, end, leg.value)
  }

  lemma WindowAsWalk(cfg: Config, c: Candidate, s: State, p: Position, rawEntry: real, t: Terms)
    requires s.open == [p] && !s.threw && Carries(cfg, c, p, rawEntry, t, p.lastBar) && p.lastBar.close > 0.0
    ensures EndsAs(s, WindowPhase(cfg, s), MarkAt(Some(p.lastBar), rawEntry, t))
  {
    var bar := p.lastBar;
    DropAsLeg(cfg, s, p, bar, Window, if t.ruleExitTs.Some? then Rule else Window, bar.close,
        SellFill(bar.close, cfg.sBtBps));
    assert WindowPhase(cfg, s) == WindowExit(cfg, s, 0);
  }

  /** Where a run stands before the bar `ts`: bars[..i] are behind it and it still holds the position. */
  ghost predicate Stands(cfg: Config, c: Candidate, bars: seq<Bar>, i: nat, ts: int, s: State, rawEntry: real,
      t: Terms) {
    && 0 < i <= |bars|
    && bars[i - 1].ts < ts && c.entryTs < ts && (ts - c.entryTs) % BAR == 0 && (i < |bars| ==> ts <= bars[i].ts)
    && !s.threw && |s.open| == 1 && Carries(cfg, c, s.open[0], rawEntry, t, bars[i - 1])
  }

  lemma MissAsWalk(cfg: Config, c: Candidate, bars: seq<Bar>, i: nat, ts: int, s: State, rawEntry: real, t: Terms)
    requires Solo(cfg, c, bars) && Stands(cfg, c, bars, i, ts, s, rawEntry, t) && (i < |bars| ==> bars[i].ts != ts)
    ensures var next := BarStep(cfg, s, ts);
            next.trades == s.trades && Stands(cfg, c, bars, i, ts + BAR, next, rawEntry, t)
  {
    hide BarStep;
    BarAtIndex(cfg.pairs[c.productId].bars, bars, c.entryTs, i, ts);
    QuietBar(cfg, c, s, s.open[0], ts);
    NextOnGrid(bars, c.entryTs, i, ts);
  }

  lemma HitAsWalk(cfg: Config, c: Candidate, bars: seq<Bar>, i: nat, s: State, rawEntry: real, t: Terms)
    requires Solo(cfg, c, bars) && i < |bars| && Stands(cfg, c, bars, i, bars[i].ts, s, rawEntry, t)
    ensures var exit := ExitOn(bars[i], rawEntry, t);
            var next := BarStep(cfg, s, bars[i].ts);
            && (exit.Some? ==> ClosedAs(s, next, exit.value))
            && (exit == None
                ==> next.trades == s.trades && Stands(cfg, c, bars, i + 1, bars[i].ts + BAR, next, rawEntry, t))
  {
    hide BarStep, ExitOn;
    var bar := bars[i];
    BarAtIndex(cfg.pairs[c.productId].bars, bars, c.entryTs, i, bar.ts);
    BarAsWalk(cfg, c, s, s.open[0], rawEntry, t, bar);
    NextOnGrid(bars, c.entryTs, i + 1, bar.ts);
    assert i + 1 < |bars| ==> bar.ts < bars[i + 1].ts;
  }

  lemma LastIsPositive(cfg: Config, c: Candidate, bars: seq<Bar>, i: nat)
    requires Solo(cfg, c, bars) && 0 < i <= |bars|
    ensures bars[i - 1].close > 0.0
  {
  }

  lemma {:induction false} LaterBars(cfg: Config, c: Candidate, bars: seq<Bar>, i: nat, ts: int, s: State,
      rawEntry: real, t: Terms)
    requires Solo(cfg, c, bars) && Stands(cfg, c, bars, i, ts, s, rawEntry, t)
    ensures EndsAs(s, Finish(cfg, s, ts), WalkFrom(bars, i, Some(bars[i - 1]), rawEntry, t))
    decreases cfg.endTs - ts
  {
    hide BarStep, ExitOn, Holds, Finish, Agrees, MarkAt, RunFrom;
    if ts >= cfg.endTs {
      AtTheEnd(cfg, c, bars, i, ts, s, rawEntry, t);
    } else {
      FinishUnfolds(cfg, s, ts);
      var next := BarStep(cfg, s, ts);
      if i < |bars| && bars[i].ts == ts {
        HitAsWalk(cfg, c, bars, i, s, rawEntry, t);
        if ExitOn(bars[i], rawEntry, t).Some? {
          EmptyBookStays(cfg, c, next, ts + BAR);
        } else {
          LaterBars(cfg, c, bars, i + 1, ts + BAR, next, rawEntry, t);
        }
      } else {
        MissAsWalk(cfg, c, bars, i, ts, s, rawEntry, t);
        LaterBars(cfg, c, bars, i, ts + BAR, next, rawEntry, t);
      }
    }
  }

  lemma AtTheEnd(cfg: Config, c: Candidate, bars: seq<Bar>, i: nat, ts: int, s: State, rawEntry: real, t: Terms)
    requires Solo(cfg, c, bars) && Stands(cfg, c, bars, i, ts, s, rawEntry, t) && ts >= cfg.endTs
    ensures EndsAs(s, Finish(cfg, s, ts), WalkFrom(bars, i, Some(bars[i - 1]), rawEntry, t))
  {
    hide BarStep, ExitOn, MarkAt, Agrees, WindowPhase;
    LastIsPositive(cfg, c, bars, i);
    WindowAsWalk(cfg, c, s, s.open[0], rawEntry, t);
  }

  lemma FinishUnfolds(cfg: Config, s: State, ts: int)
    requires ts < cfg.endTs && !s.threw
    ensures Finish(cfg, s, ts) == Finish(cfg, BarStep(cfg, s, ts), ts + BAR)
  {
  }

  /** On the grid, a bar after `ts` is at least one bar after. */
  lemma NextOnGrid(bars: seq<Bar>, entryTs: int, i: nat, ts: int)
    requires (ts - entryTs) % BAR == 0 && i < |bars| ==> (bars[i].ts - entryTs) % BAR == 0 && ts < bars[i].ts
    ensures (ts - entryTs) % BAR == 0 ==> (ts + BAR - entryTs) % BAR == 0
    ensures (ts - entryTs) % BAR == 0 && i < |bars| ==> ts + BAR <= bars[i].ts
  {
  }

  // ----- the entry

  lemma SoloPasses(cfg: Config, c: Candidate, bars: seq<Bar>, bar: Bar)
    requires Solo(cfg, c, bars) && ValidStop(bar, c.stopDistance)
    requires StopBps(bar, c.stopDistance) + CostBps(cfg) > 0.0
    ensures FailedGates(cfg, OpenBar(cfg, START, c.entryTs), c, c.entryTs, QuoteOf(cfg, c, c.entryTs, bar)) == {}
  {
    var s := OpenBar(cfg, START, c.entryTs);
    NewPositionIsSized(cfg, c, c.entryTs, bar);
    var q := QuoteOf(cfg, c, c.entryTs, bar);
    SizeBounds(q.stopBps + CostBps(cfg));
    forall g ensures !GateFails(cfg, s, c, c.entryTs, q, g) {
      assert Equity(s, cfg.sBtBps) == 0.0;
    }
    forall g ensures g !in FailedGates(cfg, s, c, c.entryTs, q) {
      Passes(cfg, s, c, c.entryTs, q, g);
    }
  }

  lemma EntryBarUnfolds(cfg: Config, c: Candidate)
    requires cfg.candidates == [c]
    ensures var tried := Attempt(cfg, OpenBar(cfg, START, c.entryTs), c, c.entryTs);
            BarStep(cfg, START, c.entryTs) ==
              if tried.threw then tried else BumpPeak(cfg, ManagePhase(cfg, tried, c.entryTs, 0))
  {
    NoneDue(cfg, c, c.entryTs);
    var begun := OpenBar(cfg, START, c.entryTs);
    assert GapPhase(cfg, begun, c.entryTs, 0) == begun;
    assert [c][1..] == [];
    var tried := Attempt(cfg, begun, c, c.entryTs);
    assert EntryPhase(cfg, tried, [], c.entryTs) == tried;
  }

  /** The entry bar is on hand, with a usable stop. */
  ghost predicate Enters(cfg: Config, c: Candidate, bars: seq<Bar>, bar: Bar) {
    && Solo(cfg, c, bars) && IndexOf(bars, c.entryTs) < |bars| && bars[IndexOf(bars, c.entryTs)] == bar
    && BarAt(cfg, c.productId, c.entryTs) == Some(bar) && ValidStop(bar, c.stopDistance)
    && StopBps(bar, c.stopDistance) + CostBps(cfg) > 0.0
  }

  /** The entry bar is reached with a usable stop, but stop and cost together are not positive. */
  ghost predicate CannotSize(cfg: Config, c: Candidate, bars: seq<Bar>) {
    var i := IndexOf(bars, c.entryTs);
    && c.entryTs < cfg.endTs && i < |bars| && ValidStop(bars[i], c.stopDistance)
    && StopBps(bars[i], c.stopDistance) + CostBps(cfg) <= 0.0
  }

  lemma Admitted(cfg: Config, c: Candidate, bars: seq<Bar>, bar: Bar)
    requires Enters(cfg, c, bars, bar)
    ensures var tried := Attempt(cfg, OpenBar(cfg, START, c.entryTs), c, c.entryTs);
            && |tried.open| == 1 && tried.trades == [] && !tried.threw
            && Carries(cfg, c, tried.open[0], bar.open, TermsOf(cfg, c, bars), bar)
  {
    SoloPasses(cfg, c, bars, bar);
    NewPositionIsSized(cfg, c, c.entryTs, bar);
  }

  /** The candidate enters, and its entry bar is managed as the walk manages it. */
  lemma EntryAsWalk(cfg: Config, c: Candidate, bars: seq<Bar>, bar: Bar)
    requires Enters(cfg, c, bars, bar)
    ensures var next, t := BarStep(cfg, START, c.entryTs), TermsOf(cfg, c, bars);
            var exit := ExitOn(bar, bar.open, t);
            && (exit.Some? ==> ClosedAs(START, next, exit.value))
            && (exit == None ==>
                  && next.trades == [] && !next.threw && |next.open| == 1
                  && Carries(cfg, c, next.open[0], bar.open, t, bar))
  {
    EntryBarUnfolds(cfg, c);
    Admitted(cfg, c, bars, bar);
    var tried := Attempt(cfg, OpenBar(cfg, START, c.entryTs), c, c.entryTs);
    assert tried.open == [tried.open[0]];
    PhasesOfOne(cfg, tried, c.entryTs);
    ManageAsWalk(cfg, c, tried, tried.open[0], bar.open, TermsOf(cfg, c, bars), bar);
  }

  /** With nothing to enter on, or an unusable stop, the entry bar changes nothing. */
  lemma NoEntry(cfg: Config, c: Candidate)
    requires cfg.candidates == [c]
    requires BarAt(cfg, c.productId, c.entryTs).Some?
       ==> !ValidStop(BarAt(cfg, c.productId, c.entryTs).value, c.stopDistance)
    ensures var next := BarStep(cfg, START, c.entryTs); next.open == [] && next.trades == [] && !next.threw
  {
    EntryBarUnfolds(cfg, c);
  }

  lemma StartOfOne(c: Candidate, endTs: int)
    ensures StartTs([c], endTs) == if c.entryTs < endTs then c.entryTs else endTs
  {
    assert [c][..0] == [];
  }

  lemma SizingThrows(cfg: Config, c: Candidate, bar: Bar)
    requires cfg.candidates == [c] && BarAt(cfg, c.productId, c.entryTs) == Some(bar) && ValidStop(bar, c.stopDistance)
    requires StopBps(bar, c.stopDistance) + CostBps(cfg) <= 0.0
    ensures BarStep(cfg, START, c.entryTs).threw
  {
    hide ManagePhase;
    EntryBarUnfolds(cfg, c);
  }

  lemma ThrownStays(cfg: Config, s: State, ts: int)
    requires ts < cfg.endTs && BarStep(cfg, s, ts).threw && !s.threw
    ensures Finish(cfg, s, ts).threw
  {
    FinishUnfolds(cfg, s, ts);
    AlreadyThrown(cfg, BarStep(cfg, s, ts), ts + BAR);
  }

  lemma AlreadyThrown(cfg: Config, s: State, ts: int)
    requires s.threw
    ensures Finish(cfg, s, ts) == s
  {
  }

  /**
   * On its own, a candidate stops the run exactly when it cannot be sized. Otherwise it is taken
   * whenever the walk takes it, and becomes the walk's trade: same exit time, prices and returns,
   * for every bar series, stop, cost and rule exit.
   */
  lemma BookRefinesWalk(cfg: Config, c: Candidate, bars: seq<Bar>)
    requires Solo(cfg, c, bars)
    ensures var leg := Walk(bars, TermsOf(cfg, c, bars));
            var s := Run(cfg);
            && (s.threw <==> CannotSize(cfg, c, bars))
            && (!s.threw ==> s.open == [] && IsOnly(s.trades, leg))
  {
    hide Finish, Walk, Agrees, Holds, BarStep, StopBps, CostBps, TermsOf;
    RunIsFinish(cfg, c);
    var i := IndexOf(bars, c.entryTs);
    EntryBarIndexed(cfg.pairs[c.productId].bars, bars, c.entryTs);
    if c.entryTs >= cfg.endTs || i == |bars| || !ValidStop(bars[i], c.stopDistance) {
      NothingTaken(cfg, c, bars);
    } else if StopBps(bars[i], c.stopDistance) + CostBps(cfg) <= 0.0 {
      SizingThrows(cfg, c, bars[i]);
      ThrownStays(cfg, START, c.entryTs);
    } else {
      FinishUnfolds(cfg, START, c.entryTs);
      EntersAndEnds(cfg, c, bars, bars[i]);
    }
  }

  lemma NothingTaken(cfg: Config, c: Candidate, bars: seq<Bar>)
    requires Solo(cfg, c, bars)
    requires var i := IndexOf(bars, c.entryTs);
            c.entryTs >= cfg.endTs || i == |bars| || !ValidStop(bars[i], c.stopDistance)
    ensures Walk(bars, TermsOf(cfg, c, bars)) == None
    ensures var s := Finish(cfg, START, if c.entryTs < cfg.endTs then c.entryTs else cfg.endTs);
            s.open == [] && s.trades == [] && !s.threw
  {
    hide BarStep, Holds, Walk, TermsOf;
    EntryBarIndexed(cfg.pairs[c.productId].bars, bars, c.entryTs);
    NoWalk(cfg, c, bars);
    if c.entryTs < cfg.endTs {
      NoEntry(cfg, c);
      FinishUnfolds(cfg, START, c.entryTs);
      EmptyBookStays(cfg, c, BarStep(cfg, START, c.entryTs), c.entryTs + BAR);
    }
  }

  lemma NoWalk(cfg: Config, c: Candidate, bars: seq<Bar>)
    requires c.productId in cfg.pairs
    requires var i := IndexOf(bars, c.entryTs);
            c.entryTs >= cfg.endTs || i == |bars| || !ValidStop(bars[i], c.stopDistance)
    ensures Walk(bars, TermsOf(cfg, c, bars)) == None
  {
    hide ExitOn;
  }

  lemma RunIsFinish(cfg: Config, c: Candidate)
    requires cfg.candidates == [c]
    ensures Run(cfg) == Finish(cfg, START, if c.entryTs < cfg.endTs then c.entryTs else cfg.endTs)
  {
    StartOfOne(c, cfg.endTs);
  }

  lemma WalkBegins(cfg: Config, c: Candidate, bars: seq<Bar>, bar: Bar)
    requires Enters(cfg, c, bars, bar) && c.entryTs < cfg.endTs
    ensures var t := TermsOf(cfg, c, bars);
            var exit := ExitOn(bar, bar.open, t);
            Walk(bars, t) == if exit.Some? then exit
                             else WalkFrom(bars, IndexOf(bars, c.entryTs) + 1, Some(bar), bar.open, t)
  {
    hide ExitOn, MarkAt, Holds, CostBps, StopBps, BarAt, Ascending;
  }

  lemma HeldAfterEntry(cfg: Config, c: Candidate, bars: seq<Bar>, bar: Bar)
    requires Enters(cfg, c, bars, bar)
    requires ExitOn(bar, bar.open, TermsOf(cfg, c, bars)) == None
    ensures Stands(cfg, c, bars, IndexOf(bars, c.entryTs) + 1, c.entryTs + BAR, BarStep(cfg, START, c.entryTs),
                   bar.open, TermsOf(cfg, c, bars))
  {
    hide BarStep, ExitOn, Carries, TermsOf;
    var i := IndexOf(bars, c.entryTs);
    EntryAsWalk(cfg, c, bars, bar);
    NextOnGrid(bars, c.entryTs, i + 1, c.entryTs);
    assert i + 1 < |bars| ==> bars[i].ts < bars[i + 1].ts;
  }

  lemma EntersAndEnds(cfg: Config, c: Candidate, bars: seq<Bar>, bar: Bar)
    requires Enters(cfg, c, bars, bar) && c.entryTs < cfg.endTs
    ensures EndsAs(START, Finish(cfg, BarStep(cfg, START, c.entryTs), c.entryTs + BAR),
            Walk(bars, TermsOf(cfg, c, bars)))
  {
    hide BarStep, ExitOn, TermsOf, Walk, WalkFrom, Stands;
    var t := TermsOf(cfg, c, bars);
    EntryAsWalk(cfg, c, bars, bar);
    WalkBegins(cfg, c, bars, bar);
    if ExitOn(bar, bar.open, t).Some? {
      EmptyBookStays(cfg, c, BarStep(cfg, START, c.entryTs), c.entryTs + BAR);
    } else {
      HeldAfterEntry(cfg, c, bars, bar);
      LaterBars(cfg, c, bars, IndexOf(bars, c.entryTs) + 1, c.entryTs + BAR, BarStep(cfg, START, c.entryTs), bar.open,
          t);
    }
  }

  lemma EntryBarIndexed(m: BarMap, bars: seq<Bar>, entryTs: int)
    requires Holds(m, bars, entryTs)
    ensures var i := IndexOf(bars, entryTs);
            && (entryTs in m <==> i < |bars|)
            && (entryTs in m ==> m[entryTs] == bars[i])
  {
    if entryTs in m {
      var k :| 0 <= k < |bars| && bars[k] == m[entryTs];
    }
  }
}
