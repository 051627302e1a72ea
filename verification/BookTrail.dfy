/** The trail over a whole life: a held position's highest close and stop, told from the days it was trailed on. */
module BookTrail {
  import opened Basics
  import opened BookModel
  import opened BookRisk
  import opened BookSafety
  import opened BookTimeline
  import opened BookTrades

  /** The day that step e trails this holding on, if it does: it is managed on the day's last bar, and stays. */
  ghost function TrailOf(cfg: Config, s: State, t: State, e: Event, productId: string, entryTs: int): Option<Daily> {
    if e.action.ManageOne? && !s.threw && e.action.i < |s.open| && |t.open| == |s.open| then
      var p := s.open[e.action.i];
      var bar := ManagedBar(cfg, p, e.ts);
      if p.productId == productId && p.entryTs == entryTs && bar.Some? then TrailDay(cfg, p, bar.value) else None
    else None
  }

  function DayOr(day: Option<Daily>): seq<Daily> {
    if day.Some? then [day.value] else []
  }

  /** All those days, in order. */
  ghost function TrailDays(cfg: Config, events: seq<Event>, productId: string, entryTs: int): seq<Daily> {
    if events == [] then []
    else
      var n := |events| - 1;
      var s := Replay(cfg, START, events[..n]);
      var day := TrailOf(cfg, s, Step(cfg, s, events[n]), events[n], productId, entryTs);
      TrailDays(cfg, events[..n], productId, entryTs) + DayOr(day)
  }

  ghost function HighestOf(days: seq<Daily>): real
    requires days != []
  {
    var n := |days| - 1;
    if n == 0 then days[0].close else Max(HighestOf(days[..n]), days[n].close)
  }

  /** The highest stop so far: the initial one, or three ATR under the highest close of a day. */
  ghost function StopOver(initial: real, days: seq<Daily>): real {
    if days == [] then initial
    else
      var n := |days| - 1;
      Max(StopOver(initial, days[..n]), HighestOf(days) - 3.0 * days[n].atr)
  }

  /** The highest close is one of the days', and no day closed higher. */
  lemma {:induction false} HighestIsGreatest(days: seq<Daily>)
    requires days != []
    ensures exists k :: 0 <= k < |days| && days[k].close == HighestOf(days)
    ensures forall k :: 0 <= k < |days| ==> days[k].close <= HighestOf(days)
  {
    var n := |days| - 1;
    if n > 0 {
      HighestIsGreatest(days[..n]);
      var k :| 0 <= k < n && days[..n][k].close == HighestOf(days[..n]);
      assert days[k].close == HighestOf(days[..n]) && days[n].close <= HighestOf(days);
      assert forall j :: 0 <= j < n ==> days[j] == days[..n][j];
      assert days[if HighestOf(days[..n]) < days[n].close then n else k].close == HighestOf(days);
    } else {
      assert days[0].close == HighestOf(days);
    }
  }

  ghost function Trail(days: seq<Daily>, k: nat): real
    requires k < |days|
  {
    HighestOf(days[..k + 1]) - 3.0 * days[k].atr
  }

  /** The stop is the greatest of the initial one and of each day's trail. */
  lemma {:induction false} StopIsGreatest(initial: real, days: seq<Daily>)
    ensures StopOver(initial, days) >= initial
    ensures forall k :: 0 <= k < |days| ==> StopOver(initial, days) >= Trail(days, k)
    ensures StopOver(initial, days) == initial || exists k ::
            0 <= k < |days| && StopOver(initial, days) == Trail(days, k)
  {
    hide HighestOf;
    if days != [] {
      var n := |days| - 1;
      StopIsGreatest(initial, days[..n]);
      assert days[..n + 1] == days;
      forall k | 0 <= k < n ensures Trail(days[..n], k) == Trail(days, k) {
        assert days[..n][..k + 1] == days[..k + 1];
      }
      if StopOver(initial, days) == StopOver(initial, days[..n]) && StopOver(initial, days[..n]) != initial {
        var k :| 0 <= k < n && StopOver(initial, days[..n]) == Trail(days[..n], k);
        assert StopOver(initial, days) == Trail(days, k);
      } else if StopOver(initial, days) != StopOver(initial, days[..n]) {
        assert StopOver(initial, days) == Trail(days, n);
      }
    }
  }

  ghost function StopAtEntry(rawEntry: real, stopBps: real): real {
    rawEntry - rawEntry * stopBps / 10_000.0
  }

  ghost predicate TrailedBy(p: Position, days: seq<Daily>) {
    var initial := StopAtEntry(p.rawEntry, p.stopBps);
    && p.highestClose == (if days == [] then None else Some(HighestOf(days)))
    && p.stop == StopOver(initial, days)
    && p.stopMoved == (p.stop > initial)
  }

  /** The pair is held since then or later, or was left after it. */
  ghost predicate SpentKey(s: State, productId: string, ts: int) {
    || (exists q :: q in s.open && q.productId == productId && ts <= q.entryTs)
    || (productId in s.lastExit && ts <= s.lastExit[productId])
  }

  ghost predicate AllTrailed(cfg: Config, events: seq<Event>, s: State) {
    forall p :: p in s.open ==> TrailedBy(p, TrailDays(cfg, events, p.productId, p.entryTs))
  }

  ghost predicate TrailsAreSpent(cfg: Config, events: seq<Event>, s: State) {
    forall productId, entryTs :: TrailDays(cfg, events, productId, entryTs) != [] ==> SpentKey(s, productId, entryTs)
  }

  lemma {:induction false} SpentStays(cfg: Config, s: State, now: int, e: Event, productId: string, ts: int)
    requires Timely(s, now) && now <= e.ts && SpentKey(s, productId, ts)
    ensures SpentKey(Step(cfg, s, e), productId, ts)
  {
    hide Step, Timely;
    var stop := 0.0;
    if q :| q in s.open && q.productId == productId && q.entryTs == ts {
      stop := q.stop;
    }
    var p: Position := PositionRecord(A, productId, 0, ts, 1.0, 1.0, 0.0, 0.0, stop, None, None, "", FLAT_BAR, 0.0, 0.0,
        0.0, None, false);
    assert StopHeld(p, s) by {
      PairOnce(s, now);
    }
    RatchetStep(cfg, s, now, e, p);
  }

  lemma PairOnce(s: State, now: int)
    requires Timely(s, now)
    ensures OnePositionPerPair(s.open)
    ensures forall p, q :: p in s.open && q in s.open && p.productId == q.productId ==> p == q
  {
    hide TradesSpaced, OpenSpaced, ClosedBy, OpenedBy;
  }

  lemma NextDays(cfg: Config, events: seq<Event>, e: Event, productId: string, entryTs: int)
    ensures var s := Replay(cfg, START, events);
            var day := TrailOf(cfg, s, Step(cfg, s, e), e, productId, entryTs);
            TrailDays(cfg, events + [e], productId, entryTs)
              == TrailDays(cfg, events, productId, entryTs) + DayOr(day)
    ensures Replay(cfg, START, events + [e]) == Step(cfg, Replay(cfg, START, events), e)
  {
    hide Step, TrailOf;
    assert (events + [e])[..|events|] == events;
  }

  /** A new position's log is empty: its pair was not held, and was left a day ago or more. */
  lemma {:induction false} FreshLog(cfg: Config, events: seq<Event>, t: State, e: Event, c: Candidate, q: Quote)
    requires TrailsAreSpent(cfg, events, Replay(cfg, START, events))
    requires Admits(cfg, Replay(cfg, START, events), t, e.ts, c, q)
    ensures TrailDays(cfg, events, c.productId, e.ts) == []
  {
    hide Replay, TrailDays, Admits;
    WaitedAndFree(cfg, Replay(cfg, START, events), t, e.ts, c, q);
  }

  lemma {:induction false} FreshTrail(cfg: Config, s: State, t: State, ts: int, c: Candidate, q: Quote)
    requires Admits(cfg, s, t, ts, c, q)
    ensures TrailedBy(NewPosition(cfg, c, ts, q), [])
    ensures var p := NewPosition(cfg, c, ts, q); p.productId == c.productId && p.entryTs == ts
  {
    hide FailedGates, NotionalUsd, EntryOpenRiskUsd, StopBps, CostBps;
    NewPositionIsSized(cfg, c, ts, q.bar);
  }

  lemma {:induction false} TrailStays(cfg: Config, p: Position, bar: Bar, q: Position, days: seq<Daily>)
    requires TrailedBy(p, days) && StaysAs(cfg, p, bar, q)
    ensures var day := TrailDay(cfg, p, bar); TrailedBy(q, days + DayOr(day))
  {
    hide TrailDay, HighestOf, StopAtEntry;
    var day, initial := TrailDay(cfg, p, bar), StopAtEntry(p.rawEntry, p.stopBps);
    if day.Some? {
      var more := days + DayOr(day);
      assert more[..|days|] == days;
      OneMoreDay(days, day.value);
      StopIsGreatest(initial, days);
    } else {
      assert days + DayOr(day) == days;
    }
  }

  lemma OneMoreDay(days: seq<Daily>, day: Daily)
    ensures HighestOf(days + [day]) == if days == [] then day.close else Max(HighestOf(days), day.close)
  {
    assert (days + [day])[..|days|] == days;
  }

  /** Other steps leave every log and every trail that is still held alone. */
  lemma {:induction false} LogsKept(cfg: Config, events: seq<Event>, e: Event)
    requires var s := Replay(cfg, START, events);
             !e.action.ManageOne? || s.threw || e.action.i >= |s.open| || |Step(cfg, s, e).open| != |s.open|
    ensures forall productId, entryTs ::
              TrailDays(cfg, events + [e], productId, entryTs) == TrailDays(cfg, events, productId, entryTs)
  {
    hide Step, Replay, TrailDays, TrailDay, ManagedBar;
    forall productId, entryTs
      ensures TrailDays(cfg, events + [e], productId, entryTs) == TrailDays(cfg, events, productId, entryTs) {
      NextDays(cfg, events, e, productId, entryTs);
      assert TrailDays(cfg, events, productId, entryTs) + [] == TrailDays(cfg, events, productId, entryTs);
    }
  }

  lemma {:induction false} SubsetTrailed(cfg: Config, events: seq<Event>, e: Event)
    requires AllTrailed(cfg, events, Replay(cfg, START, events))
    requires forall p :: p in Step(cfg, Replay(cfg, START, events), e).open ==> p in Replay(cfg, START, events).open
    requires forall productId, entryTs ::
               TrailDays(cfg, events + [e], productId, entryTs) == TrailDays(cfg, events, productId, entryTs)
    ensures AllTrailed(cfg, events + [e], Step(cfg, Replay(cfg, START, events), e))
  {
    hide Step, Replay, TrailDays, TrailedBy;
  }

  lemma {:induction false} EntryTrailed(cfg: Config, events: seq<Event>, e: Event, c: Candidate)
    requires e.action == TryEntry(c) && !Replay(cfg, START, events).threw
    requires AllTrailed(cfg, events, Replay(cfg, START, events))
    requires TrailsAreSpent(cfg, events, Replay(cfg, START, events))
    ensures AllTrailed(cfg, events + [e], Step(cfg, Replay(cfg, START, events), e))
  {
    hide Replay, TrailDays, TrailedBy, Attempt, Admits, NewPosition;
    var s := Replay(cfg, START, events);
    var t := Step(cfg, s, e);
    LogsKept(cfg, events, e);
    AttemptAdmitsOrNot(cfg, s, c, e.ts);
    if t.open == s.open {
      SubsetTrailed(cfg, events, e);
    } else {
      var q :| Admits(cfg, s, t, e.ts, c, q);
      FreshLog(cfg, events, t, e, c, q);
      FreshTrail(cfg, s, t, e.ts, c, q);
      OpenGrows(cfg, s, t, e.ts, c, q);
    }
  }

  lemma OpenGrows(cfg: Config, s: State, t: State, ts: int, c: Candidate, q: Quote)
    requires Admits(cfg, s, t, ts, c, q)
    ensures forall p :: p in t.open ==> p in s.open || p == NewPosition(cfg, c, ts, q)
  {
    hide FailedGates, NewPosition, QuoteOf, StopBps, CostBps;
  }

  lemma {:induction false} ManagedTrailed(cfg: Config, events: seq<Event>, e: Event, now: int)
    requires e.action.ManageOne? && !Replay(cfg, START, events).threw && e.action.i < |Replay(cfg, START, events).open|
    requires AllTrailed(cfg, events, Replay(cfg, START, events)) && Timely(Replay(cfg, START, events), now)
    ensures AllTrailed(cfg, events + [e], Step(cfg, Replay(cfg, START, events), e))
  {
    hide Replay, TrailDays, TrailedBy, Step, ClosedAt, StaysAs, StopSlip, LessSpread, TrailDay, Timely, Dollars;
    var s, i := Replay(cfg, START, events), e.action.i;
    var p, t := s.open[i], Step(cfg, s, e);
    assert e == Event(e.ts, Action.ManageOne(i));
    ManageDecides(cfg, s, i, e.ts);
    PairOnce(s, now);
    assert p in s.open;
    var found := ManagedBar(cfg, p, e.ts);
    if found.Some? && !StopDue(p, found.value) && !RuleDueAtOpen(p, found.value) && !RuleDueAtClose(p, found.value) {
      var q := t.open[i];
      TrailStays(cfg, p, found.value, q, TrailDays(cfg, events, p.productId, p.entryTs));
      SameHoldingStays(cfg, p, found.value, q);
      forall x | x in t.open ensures TrailedBy(x, TrailDays(cfg, events + [e], x.productId, x.entryTs)) {
        NextDays(cfg, events, e, x.productId, x.entryTs);
        var k :| 0 <= k < |t.open| && t.open[k] == x;
        if k != i {
          assert x == s.open[k] && x in s.open;
          OthersDiffer(s, i, k);
          assert TrailDays(cfg, events, x.productId, x.entryTs) + [] == TrailDays(cfg, events, x.productId, x.entryTs);
        }
      }
    } else {
      if found.Some? {
        var bar := found.value;
        if StopDue(p, bar) {
          ClosedShrinks(s, t, i, e.ts, Stop, p.stop, p.stop - StopSlip(cfg, p, e.ts));
        } else if RuleDueAtOpen(p, bar) {
          ClosedShrinks(s, t, i, e.ts, Rule, bar.open, LessSpread(cfg, bar.open));
        } else {
          ClosedShrinks(s, t, i, e.ts, Rule, bar.close, LessSpread(cfg, bar.close));
        }
        LogsKept(cfg, events, e);
      } else {
        NothingManaged(cfg, events, e);
      }
      SubsetTrailed(cfg, events, e);
    }
  }

  lemma OthersDiffer(s: State, i: nat, k: nat)
    requires i < |s.open| && k < |s.open| && i != k && OnePositionPerPair(s.open)
    ensures s.open[i].productId != s.open[k].productId
  {
  }

  lemma SameHoldingStays(cfg: Config, p: Position, bar: Bar, q: Position)
    requires StaysAs(cfg, p, bar, q)
    ensures q.productId == p.productId && q.entryTs == p.entryTs
  {
    hide TrailDay;
  }

  /** A close shrinks the book to positions it held. */
  lemma ClosedShrinks(s: State, t: State, i: nat, exitTs: int, reason: Reason, rawExit: real, fillExit: real)
    requires i < |s.open| && ClosedAt(s, t, i, exitTs, reason, rawExit, fillExit)
    ensures |t.open| == |s.open| - 1 && forall p :: p in t.open ==> p in s.open
  {
    hide TradeOf;
  }

  lemma {:induction false} NothingManaged(cfg: Config, events: seq<Event>, e: Event)
    requires var s := Replay(cfg, START, events);
             && e.action.ManageOne? && e.action.i < |s.open| && ManagedBar(cfg, s.open[e.action.i], e.ts) == None
    ensures forall productId, entryTs ::
              TrailDays(cfg, events + [e], productId, entryTs) == TrailDays(cfg, events, productId, entryTs)
  {
    hide Step, Replay, TrailDays, TrailDay, ManagedBar;
    forall productId, entryTs
      ensures TrailDays(cfg, events + [e], productId, entryTs) == TrailDays(cfg, events, productId, entryTs) {
      NextDays(cfg, events, e, productId, entryTs);
      assert TrailDays(cfg, events, productId, entryTs) + [] == TrailDays(cfg, events, productId, entryTs);
    }
  }

  /** Any other step only closes positions, or touches none. */
  lemma {:induction false} OtherTrailed(cfg: Config, events: seq<Event>, e: Event)
    requires !e.action.ManageOne? && !e.action.TryEntry?
    requires AllTrailed(cfg, events, Replay(cfg, START, events))
    ensures AllTrailed(cfg, events + [e], Step(cfg, Replay(cfg, START, events), e))
  {
    hide Replay, TrailDays, TrailedBy, GapExit, WindowExit, Equity, ClosedAt;
    var s := Replay(cfg, START, events);
    LogsKept(cfg, events, e);
    if !s.threw && e.action.CheckGap? && e.action.i < |s.open| {
      assert e == Event(e.ts, CheckGap(e.action.i));
      GapKeepsMembers(cfg, s, e.action.i, e.ts);
    } else if !s.threw && e.action.Liquidate? && e.action.i < |s.open| {
      assert e == Event(e.ts, Liquidate(e.action.i));
      WindowKeepsMembers(cfg, s, e.action.i, e.ts);
    }
    SubsetTrailed(cfg, events, e);
  }

  lemma GapKeepsMembers(cfg: Config, s: State, i: nat, ts: int)
    requires !s.threw && i < |s.open|
    ensures forall p :: p in Step(cfg, s, Event(ts, CheckGap(i))).open ==> p in s.open
  {
    hide Step, ClosedAt;
    GapDecides(cfg, s, i, ts);
    var t, p := Step(cfg, s, Event(ts, CheckGap(i))), s.open[i];
    if t != s {
      var open := cfg.pairs[p.productId].bars[ts].open;
      ClosedShrinks(s, t, i, ts, Gap, open, open);
    }
  }

  lemma WindowKeepsMembers(cfg: Config, s: State, i: nat, ts: int)
    requires !s.threw && i < |s.open|
    ensures forall p :: p in Step(cfg, s, Event(ts, Liquidate(i))).open ==> p in s.open
  {
    hide Step, ClosedAt, LessSpread;
    WindowDecides(cfg, s, i, ts);
    var bar := s.open[i].lastBar;
    ClosedShrinks(s, Step(cfg, s, Event(ts, Liquidate(i))), i, bar.ts, Window, bar.close, LessSpread(cfg, bar.close));
  }

  lemma {:induction false} SpentStep(cfg: Config, events: seq<Event>, e: Event, now: int)
    requires TrailsAreSpent(cfg, events, Replay(cfg, START, events))
    requires Timely(Replay(cfg, START, events), now) && now <= e.ts
    ensures TrailsAreSpent(cfg, events + [e], Step(cfg, Replay(cfg, START, events), e))
  {
    hide Step, Replay, TrailDays, Timely, TrailDay, ManagedBar, SpentKey;
    var s := Replay(cfg, START, events);
    forall productId, entryTs | TrailDays(cfg, events + [e], productId, entryTs) != []
      ensures SpentKey(Step(cfg, s, e), productId, entryTs) {
      NextDays(cfg, events, e, productId, entryTs);
      if TrailDays(cfg, events, productId, entryTs) == [] {
        assert TrailOf(cfg, s, Step(cfg, s, e), e, productId, entryTs).Some?;
        HeldIsSpent(s, s.open[e.action.i]);
      }
      SpentStays(cfg, s, now, e, productId, entryTs);
    }
  }

  lemma HeldIsSpent(s: State, p: Position)
    requires p in s.open
    ensures SpentKey(s, p.productId, p.entryTs)
  {
  }

  /**
   * At every instant of every run, for every position: the highest close it remembers is that of the
   * days it was trailed on, its stop is the greatest of the initial one and three ATR under the
   * highest close so far, day by day, and it counts as moved when it is above the initial one.
   */
  lemma {:induction false} StopIsTrail(cfg: Config, events: seq<Event>)
    requires InOrder(events)
    ensures AllTrailed(cfg, events, Replay(cfg, START, events))
    ensures TrailsAreSpent(cfg, events, Replay(cfg, START, events))
  {
    hide Step, Timely, AllTrailed, TrailsAreSpent;
    if events == [] {
      NothingTrailed(cfg);
    } else {
      var n := |events| - 1;
      var before, e := events[..n], events[n];
      assert before + [e] == events;
      StopIsTrail(cfg, before);
      TimelyAlways(cfg, before, e.ts);
      SpentStep(cfg, before, e, e.ts);
      TrailedStep(cfg, before, e);
    }
  }

  lemma NothingTrailed(cfg: Config)
    ensures AllTrailed(cfg, [], Replay(cfg, START, [])) && TrailsAreSpent(cfg, [], Replay(cfg, START, []))
  {
  }

  lemma {:induction false} TrailedStep(cfg: Config, events: seq<Event>, e: Event)
    requires AllTrailed(cfg, events, Replay(cfg, START, events))
    requires TrailsAreSpent(cfg, events, Replay(cfg, START, events)) && Timely(Replay(cfg, START, events), e.ts)
    ensures AllTrailed(cfg, events + [e], Step(cfg, Replay(cfg, START, events), e))
  {
    hide Replay, AllTrailed, TrailsAreSpent, Timely;
    var s := Replay(cfg, START, events);
    if e.action.ManageOne? {
      if s.threw || e.action.i >= |s.open| {
        LogsKept(cfg, events, e);
        SubsetTrailed(cfg, events, e);
      } else {
        ManagedTrailed(cfg, events, e, e.ts);
      }
    } else if e.action.TryEntry? {
      if s.threw {
        LogsKept(cfg, events, e);
        SubsetTrailed(cfg, events, e);
      } else {
        EntryTrailed(cfg, events, e, e.action.c);
      }
    } else {
      OtherTrailed(cfg, events, e);
    }
  }
}
