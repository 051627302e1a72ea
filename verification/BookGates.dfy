/** Two gates that the others make redundant, wholly or almost. */
module BookGates {
  import opened Basics
  import opened BookModel
  import opened BookRisk
  import opened BookSafety

  /** A stop that has trailed above twice its fill. */
  predicate Runaway(p: Position) {
    p.stopMoved && p.stop > 2.0 * p.fillEntry
  }

  lemma OpenRiskGateNeedsRunaway(cfg: Config, s: State, addRisk: real)
    requires Caps(cfg, s.open) && CoversBothLegs(cfg) && addRisk <= RISK_USD
    requires Sum(s.open, RiskOf(cfg.sBtBps)) + addRisk > OPEN_RISK_CAP_USD
    ensures exists p :: p in s.open && Runaway(p)
  {
    if forall p :: p in s.open ==> !Runaway(p) {
      forall p | p in s.open ensures RiskOf(cfg.sBtBps)(p) <= RISK_USD {
        LiveRiskWithinEntryRisk(cfg, p);
      }
      SumBound(s.open, RiskOf(cfg.sBtBps), RISK_USD);
      SevenAtMost(cfg, s.open);
      ProductMonotone(|s.open| as real, 7.0, RISK_USD);
      assert false;
    }
  }

  lemma HitsOfStep(cfg: Config, s: State, e: Event)
    requires Caps(cfg, s.open)
    ensures BookSlots in Step(cfg, s, e).tally.hits ==> BookSlots in s.tally.hits
    ensures CoversBothLegs(cfg) && OpenRisk in Step(cfg, s, e).tally.hits && OpenRisk !in s.tally.hits
      ==> exists p :: p in s.open && Runaway(p)
  {
    hide Sum, Count, NewPosition, MarkUsd, PairPnl, Equity;
    if !s.threw && e.action.TryEntry? {
      var c := e.action.c;
      var bar := BarAt(cfg, c.productId, e.ts);
      if bar.Some? && ValidStop(bar.value, c.stopDistance) && StopBps(bar.value, c.stopDistance) + CostBps(cfg) > 0.0 {
        NewPositionIsSized(cfg, c, e.ts, bar.value);
        var q := QuoteOf(cfg, c, e.ts, bar.value);
        SizeBounds(q.stopBps + CostBps(cfg));
        SevenAtMost(cfg, s.open);
        Passes(cfg, s, c, e.ts, q, BookSlots);
        Passes(cfg, s, c, e.ts, q, OpenRisk);
        if CoversBothLegs(cfg) && GateFails(cfg, s, c, e.ts, q, OpenRisk) {
          OpenRiskGateNeedsRunaway(cfg, s, q.addRisk);
        }
      }
    }
  }

  /** The eight-position gate never rejects anything. */
  lemma {:induction false} BookSlotsNeverFires(cfg: Config, events: seq<Event>)
    ensures BookSlots !in Replay(cfg, START, events).tally.hits
  {
    if events != [] {
      var n := |events| - 1;
      BookSlotsNeverFires(cfg, events[..n]);
      CapsAlways(cfg, events[..n]);
      HitsOfStep(cfg, Replay(cfg, START, events[..n]), events[n]);
    }
  }

  /** Sized at two exit legs or more, the $480 gate rejects only after some stop has trailed above twice its fill. */
  lemma {:induction false} OpenRiskFiresOnlyAfterRunaway(cfg: Config, events: seq<Event>)
    requires CoversBothLegs(cfg)
    requires OpenRisk in Replay(cfg, START, events).tally.hits
    ensures exists k, p :: 0 <= k < |events| && p in Replay(cfg, START, events[..k]).open && Runaway(p)
  {
    var n := |events| - 1;
    var before := Replay(cfg, START, events[..n]);
    if OpenRisk in before.tally.hits {
      OpenRiskFiresOnlyAfterRunaway(cfg, events[..n]);
      var k, p :| 0 <= k < n && p in Replay(cfg, START, events[..n][..k]).open && Runaway(p);
      assert events[..n][..k] == events[..k];
    } else {
      CapsAlways(cfg, events[..n]);
      HitsOfStep(cfg, before, events[n]);
    }
  }
}
