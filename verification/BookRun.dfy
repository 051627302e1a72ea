/** The book as it runs: the fields it updates, phase by phase, with every step recorded. */
module BookRun {
  import opened Basics
  import opened Sorting
  import M = BookModel
  import opened BookModel
  import opened BookSafety
  import opened BookLedger
  import opened BookAttempts

  datatype BookResult = BookResult(trades: seq<Trade>, tally: Tally, betaApplied: bool)

  predicate ListedBefore(x: Trade, y: Trade) {
    if x.entryTs != y.entryTs then x.entryTs < y.entryTs else Less(x.productId, y.productId)
  }

  class Book {
    const cfg: Config
    var open: seq<Position>
    var trades: seq<Trade>
    var lastExit: map<string, int>
    var pairPnl: map<string, real>
    var realized: real
    var peakEquity: real
    var curves: ByClass<Curve>
    var day: Watermark
    var week: Watermark
    var tally: Tally
    var threw: bool
    ghost var events: seq<Event>

    ghost function Now(): State
      reads this
    {
      State(open, trades, lastExit, pairPnl, realized, peakEquity, curves, day, week, tally, threw)
    }

    /** The recorded steps, none later than `clock`, account for the whole state. */
    ghost predicate Recorded(clock: int)
      reads this
    {
      && Now() == Replay(cfg, START, events)
      && InOrder(events)
      && forall i :: 0 <= i < |events| ==> events[i].ts <= clock
    }

    constructor (cfg: Config)
      ensures this.cfg == cfg && Now() == START && events == []
    {
      this.cfg := cfg;
      open, trades, lastExit, pairPnl := [], [], map[], map[];
      realized, peakEquity := 0.0, 0.0;
      curves := ByClass(START_CURVE, START_CURVE);
      day, week := Watermark(None, 0.0), Watermark(None, 0.0);
      tally := START.tally;
      threw := false;
      events := [];
    }

    ghost method Record(before: State, ts: int, action: Action)
      requires forall i :: 0 <= i < |events| ==> events[i].ts <= ts
      requires InOrder(events) && before == Replay(cfg, START, events)
      requires Now() == Step(cfg, before, Event(ts, action))
      modifies this`events
      ensures Recorded(ts)
      ensures TriedIn(events) == old(TriedIn(events)) + if action.TryEntry? then [action.c] else []
    {
      hide Step;
      var next := events + [Event(ts, action)];
      assert next[..|next| - 1] == events;
      events := next;
    }

    method BumpPeak()
      modifies this`peakEquity
      ensures Now() == M.BumpPeak(cfg, old(Now()))
    {
      peakEquity := Max(peakEquity, realized + Sum(open, MarkOf(cfg.sBtBps)));
    }

    method Realize(t: Trade)
      modifies this`trades, this`realized, this`pairPnl, this`curves, this`lastExit, this`peakEquity
      ensures Now() == M.Realize(cfg, old(Now()), t)
    {
      hide Advance, Sum, M.BumpPeak;
      trades := trades + [t];
      realized := realized + t.netUsd;
      pairPnl := pairPnl[t.productId := (if t.productId in pairPnl then pairPnl[t.productId] else 0.0) + t.netUsd];
      curves := curves.With(t.classId, Advance(curves.Of(t.classId), t));
      lastExit := lastExit[t.productId := t.exitTs];
      assert M.Realize(cfg, old(Now()), t) == M.BumpPeak(cfg, Now());
      BumpPeak();
    }

    method Drop(i: nat, bar: Bar, reason: Reason, rawExit: real, fillExit: real)
      requires i < |open|
      modifies this`open, this`trades, this`realized, this`pairPnl, this`curves, this`lastExit, this`peakEquity
      ensures Now() == M.Drop(cfg, old(Now()), i, bar, reason, rawExit, fillExit)
      ensures |open| == old(|open|) - 1
    {
      var p: Position := open[i].(lastBar := bar);
      open := open[..i] + open[i + 1..];
      Realize(CloseTrade(p, reason, rawExit, fillExit, reason == Window));
    }

    method StartBar(ts: int)
      requires Recorded(ts) && !threw
      modifies this`day, this`week, this`events
      ensures Recorded(ts) && Now() == OpenBar(cfg, old(Now()), ts)
      ensures TriedIn(events) == old(TriedIn(events))
    {
      hide Step, Replay, TriedIn, Sum, MarkOf;
      ghost var before := Now();
      var date := DateOf(ts);
      var monday := WeekOf(date);
      if day.key != Some(date) {
        day := Watermark(Some(date), realized + Sum(open, MarkOf(cfg.sBtBps)));
      }
      if week.key != Some(monday) {
        week := Watermark(Some(monday), realized + Sum(open, MarkOf(cfg.sBtBps)));
      }
      StepOfBar(cfg, before, ts);
      Record(before, ts, OpenTheBar);
    }

    method GapOne(i: nat, ts: int) returns (closed: bool)
      requires i < |open|
      modifies this`open, this`trades, this`realized, this`pairPnl, this`curves, this`lastExit, this`peakEquity
      ensures Now() == GapExit(cfg, old(Now()), i, ts)
      ensures |open| == old(|open|) - if closed then 1 else 0
    {
      var bar := BarAt(cfg, open[i].productId, ts);
      closed := bar.Some? && bar.value.open <= open[i].stop;
      if closed {
        Drop(i, bar.value, Gap, bar.value.open, bar.value.open);
      }
    }

    method CheckGaps(ts: int)
      requires Recorded(ts) && !threw
      modifies this`open, this`trades, this`realized, this`pairPnl, this`curves, this`lastExit, this`peakEquity,
          this`events
      ensures Recorded(ts) && Now() == GapPhase(cfg, old(Now()), ts, 0)
      ensures TriedIn(events) == old(TriedIn(events))
    {
      hide GapExit, Manage, WindowExit, Step, Replay, TriedIn, InOrder;
      var i := 0;
      while i < |open|
        invariant 0 <= i <= |open| && Recorded(ts) && !threw
        invariant GapPhase(cfg, Now(), ts, i) == GapPhase(cfg, old(Now()), ts, 0)
        invariant TriedIn(events) == old(TriedIn(events))
        decreases |open| - i
      {
        ghost var before := Now();
        ghost var step := i;
        var closed := GapOne(i, ts);
        if !closed {
          i := i + 1;
        }
        StepOf(cfg, before, ts, step);
        Record(before, ts, CheckGap(step));
      }
    }

    method Attempt(c: Candidate, ts: int)
      requires Recorded(ts) && !threw
      modifies this`open, this`curves, this`tally, this`threw, this`events
      ensures Recorded(ts) && Now() == M.Attempt(cfg, old(Now()), c, ts)
      ensures TriedIn(events) == old(TriedIn(events)) + [c]
    {
      hide Step, Replay, TriedIn, Decide, FailedGates, NewPosition;
      ghost var before := Now();
      var bar := BarAt(cfg, c.productId, ts);
      if bar == None {
        tally := tally.(attempts := tally.attempts + 1, noBar := tally.noBar + 1);
      } else if !ValidStop(bar.value, c.stopDistance) {
        tally := tally.(attempts := tally.attempts + 1, invalidStop := tally.invalidStop + 1);
      } else if StopBps(bar.value, c.stopDistance) + CostBps(cfg) <= 0.0 {
        threw := true;
      } else {
        FillIsPositive(cfg, bar.value);
        Gates(c, ts, QuoteOf(cfg, c, ts, bar.value));
      }
      StepOfTry(cfg, before, ts, c);
      Record(before, ts, TryEntry(c));
    }

    method Gates(c: Candidate, ts: int, q: Quote)
      requires q.bar.open > 0.0 && q.fillEntry > 0.0
      modifies this`open, this`curves, this`tally
      ensures Now() == Decide(cfg, old(Now()), c, ts, q)
    {
      var readings := Read(c, q);
      var failed := set g: Gate | Fails(cfg, c, ts, q, readings, g);
      assert failed == FailedGates(cfg, Now(), c, ts, q);
      Settle(c, ts, q, failed);
    }

    method Read(c: Candidate, q: Quote) returns (r: Readings)
      ensures r == ReadingsOf(cfg, Now(), c, q)
    {
      hide Sum, Count, HoldsPair, ClassKillTripped, BetaWeighted;
      var now := realized + Sum(open, MarkOf(cfg.sBtBps));
      var pnl := if c.productId in pairPnl then pairPnl[c.productId] else 0.0;
      var pairMark := Sum(open, PairMarkOf(c.productId, cfg.sBtBps));
      var weighted := None;
      if cfg.betaOf.Some? {
        weighted := Some(BetaWeighted(open, q));
      }
      var curve := curves.Of(c.classId);
      r := Readings(
        if c.productId in lastExit then Some(lastExit[c.productId]) else None,
        HoldsPair(open, c.productId),
        Count(open, OfClass(c.classId)), |open|, Count(open, InCluster(q.cluster)),
        Sum(open, RiskOf(cfg.sBtBps)), Sum(open, NotionalOf), weighted,
        Max(0.0, day.equity - now), Max(0.0, week.equity - now), Max(0.0, peakEquity - now),
        Max(0.0, -(pnl + pairMark)),
        curve.killed || ClassKillTripped(curve));
    }

    method Settle(c: Candidate, ts: int, q: Quote, failed: set<Gate>)
      requires q.bar.open > 0.0 && q.fillEntry > 0.0 && failed == FailedGates(cfg, Now(), c, ts, q)
      modifies this`open, this`curves, this`tally
      ensures Now() == Decide(cfg, old(Now()), c, ts, q)
    {
      hide FailedGates, NewPosition, ReadingsOf;
      var unresolved := if cfg.betaOf.Some? && q.rawBeta == None then 1 else 0;
      tally := tally.(
        attempts := tally.attempts + 1,
        betaUnresolved := tally.betaUnresolved + unresolved,
        log := tally.log + [LogRow(c.productId, ts, failed == {}, q.notional, q.addRisk)]);
      if failed != {} {
        if ClassRKill in failed {
          curves := curves.With(c.classId, curves.Of(c.classId).(killed := true));
        }
        tally := tally.(
          hits := tally.hits + multiset(failed),
          hitsByClass := tally.hitsByClass.With(c.classId, tally.hitsByClass.Of(c.classId) + multiset(failed)));
      } else {
        tally := tally.(taken := tally.taken + 1, maxOpen := MaxInt(tally.maxOpen, |open| + 1));
        open := open + [NewPosition(cfg, c, ts, q)];
      }
    }

    method ManageOne(i: nat, ts: int) returns (closed: bool)
      requires i < |open|
      modifies this`open, this`trades, this`realized, this`pairPnl, this`curves, this`lastExit, this`peakEquity
      ensures Now() == Manage(cfg, old(Now()), i, ts)
      ensures |open| == old(|open|) - if closed then 1 else 0
    {
      hide M.Drop, Trailed, IntrabarFill, StopFill, SellFill, BarAt, Atr1h;
      var p := open[i];
      var found := if p.lastBar.ts == ts then Some(p.lastBar) else BarAt(cfg, p.productId, ts);
      if found == None {
        return false;
      }
      var bar := found.value;
      var deduction := StopFill(p.stop, p.rawEntry, cfg.sBtBps, Atr1h(cfg, p.productId, ts));
      if IntrabarFill(bar, p.stop, None).StopAt? && bar.open > p.stop {
        Drop(i, bar, Stop, p.stop, deduction);
        return true;
      }
      if p.ruleExit.Some? && p.ruleExit.value.at == AtOpen && bar.ts == p.ruleExit.value.ts {
        Drop(i, bar, Rule, bar.open, SellFill(bar.open, cfg.sBtBps));
        return true;
      }
      if p.ruleExit.Some? && p.ruleExit.value.at == AtClose && bar.ts + BAR >= p.ruleExit.value.ts
          && bar.ts < p.ruleExit.value.ts {
        Drop(i, bar, Rule, bar.close, SellFill(bar.close, cfg.sBtBps));
        return true;
      }
      open := open[i := Trailed(cfg, p.(lastBar := bar))];
      return false;
    }

    method ManageAll(ts: int)
      requires Recorded(ts) && !threw
      modifies this`open, this`trades, this`realized, this`pairPnl, this`curves, this`lastExit, this`peakEquity,
          this`events
      ensures Recorded(ts) && !threw && Now() == ManagePhase(cfg, old(Now()), ts, 0)
      ensures TriedIn(events) == old(TriedIn(events))
    {
      hide Manage, GapExit, WindowExit, Step, Replay, TriedIn, InOrder;
      var i := 0;
      while i < |open|
        invariant 0 <= i <= |open| && Recorded(ts) && !threw
        invariant ManagePhase(cfg, Now(), ts, i) == ManagePhase(cfg, old(Now()), ts, 0)
        invariant TriedIn(events) == old(TriedIn(events))
        decreases |open| - i
      {
        ghost var before := Now();
        ghost var step := i;
        var closed := ManageOne(i, ts);
        assert Now() == Manage(cfg, before, step, ts);
        if !closed {
          i := i + 1;
        }
        StepOf(cfg, before, ts, step);
        Record(before, ts, Action.ManageOne(step));
      }
    }

    method FinishBar(ts: int)
      requires Recorded(ts) && !threw
      modifies this`peakEquity, this`events
      ensures Recorded(ts) && Now() == M.BumpPeak(cfg, old(Now()))
      ensures TriedIn(events) == old(TriedIn(events))
    {
      hide Step, Replay, TriedIn, M.BumpPeak;
      ghost var before := Now();
      BumpPeak();
      StepOfBar(cfg, before, ts);
      Record(before, ts, CloseTheBar);
    }

    method Enter(due: seq<Candidate>, ts: int)
      requires Recorded(ts) && !threw && forall k :: 0 <= k < |due| ==> due[k].entryTs == ts
      modifies this`open, this`curves, this`tally, this`threw, this`events
      ensures Recorded(ts) && Now() == EntryPhase(cfg, old(Now()), due, ts)
      ensures TriedIn(events) == old(TriedIn(events)) + Reached(cfg, due) && (threw <==> !AllSizable(cfg, due))
    {
      hide Replay, TriedIn, M.Attempt, InOrder, Step, Unsizable, Reached;
      var k := 0;
      ReachedOne(cfg, due, 0);
      while k < |due| && !threw
        invariant 0 <= k <= |due| && Recorded(ts)
        invariant EntryPhase(cfg, Now(), due[k..], ts) == EntryPhase(cfg, old(Now()), due, ts)
        invariant threw <==> !AllSizable(cfg, due[..k])
        invariant TriedIn(events) == old(TriedIn(events)) + Reached(cfg, due[..k])
        invariant threw ==> Reached(cfg, due[..k]) == Reached(cfg, due)
      {
        assert due[k..][0] == due[k] && due[k..][1..] == due[k + 1..];
        AttemptThrows(cfg, Now(), due[k]);
        ReachedOne(cfg, due, k);
        Attempt(due[k], ts);
        k := k + 1;
      }
      assert due[..|due|] == due;
    }

    method PassBar(due: seq<Candidate>, ts: int)
      requires Recorded(ts) && !threw && due == Due(cfg, ts)
      modifies this
      ensures Recorded(ts) && Now() == BarStep(cfg, old(Now()), ts)
      ensures TriedIn(events) == old(TriedIn(events)) + Reached(cfg, due) && (threw <==> !AllSizable(cfg, due))
    {
      hide Replay, TriedIn, OpenBar, GapPhase, EntryPhase, ManagePhase, M.BumpPeak, InOrder, Due, AllSizable, Reached;
      DueThen(cfg, ts);
      StartBar(ts);
      CheckGaps(ts);
      Enter(due, ts);
      if !threw {
        ManageAll(ts);
        FinishBar(ts);
      }
    }

    method PassWindow(byTs: map<int, seq<Candidate>>, start: int) returns (clock: int)
      requires Now() == START && events == []
      requires forall ts :: EnteringAt(cfg.candidates, ts) == if ts in byTs then byTs[ts] else []
      modifies this
      ensures Recorded(clock) && Now() == RunFrom(cfg, START, start)
      ensures TriedIn(events) == Reached(cfg, DueFrom(cfg, start))
    {
      hide BarStep, RunFrom, Replay, TriedIn, InOrder, EnteringAt, Sort, Reached, AllSizable, DueFrom;
      NothingYet(cfg);
      var ts := start;
      while ts < cfg.endTs && !threw
        invariant Recorded(ts) && RunFrom(cfg, Now(), ts) == RunFrom(cfg, START, start)
        invariant TriedIn(events) + (if threw then [] else Reached(cfg, DueFrom(cfg, ts)))
               == Reached(cfg, DueFrom(cfg, start))
        decreases cfg.endTs - ts
      {
        RunFromUnfolds(cfg, Now(), ts);
        ReachedUnfolds(cfg, TriedIn(events), ts);
        PassBar(Sort(if ts in byTs then byTs[ts] else [], RanksBefore), ts);
        ts := ts + BAR;
      }
      RunFromEnds(cfg, Now(), ts);
      ReachedEnds(cfg, TriedIn(events), ts);
      clock := ts;
    }

    method CloseWindow(clock: int)
      requires Recorded(clock) && !threw
      modifies this`open, this`trades, this`realized, this`pairPnl, this`curves, this`lastExit, this`peakEquity,
          this`events
      ensures Recorded(clock) && Now() == WindowPhase(cfg, old(Now())) && open == []
      ensures TriedIn(events) == old(TriedIn(events))
    {
      hide GapExit, Manage, CloseTrade, M.Realize, Step, Replay, TriedIn, InOrder;
      while |open| > 0
        invariant Recorded(clock) && !threw
        invariant WindowPhase(cfg, Now()) == WindowPhase(cfg, old(Now()))
        invariant TriedIn(events) == old(TriedIn(events))
        decreases |open|
      {
        ghost var before := Now();
        var bar := open[0].lastBar;
        Drop(0, bar, Window, bar.close, SellFill(bar.close, cfg.sBtBps));
        assert Now() == WindowExit(cfg, before, 0);
        StepOf(cfg, before, clock, 0);
        Record(before, clock, Liquidate(0));
      }
    }
  }

  lemma StepOf(cfg: Config, s: State, ts: int, i: nat)
    requires !s.threw && i < |s.open|
    ensures Step(cfg, s, Event(ts, CheckGap(i))) == GapExit(cfg, s, i, ts)
    ensures Step(cfg, s, Event(ts, Action.ManageOne(i))) == Manage(cfg, s, i, ts)
    ensures Step(cfg, s, Event(ts, Liquidate(i))) == WindowExit(cfg, s, i)
  {
  }

  lemma NothingYet(cfg: Config)
    ensures Replay(cfg, START, []) == START && InOrder([]) && TriedIn([]) == []
  {
  }

  lemma StepOfBar(cfg: Config, s: State, ts: int)
    requires !s.threw
    ensures Step(cfg, s, Event(ts, OpenTheBar)) == OpenBar(cfg, s, ts)
    ensures Step(cfg, s, Event(ts, CloseTheBar)) == M.BumpPeak(cfg, s)
  {
  }

  lemma StepOfTry(cfg: Config, s: State, ts: int, c: Candidate)
    requires !s.threw
    ensures Step(cfg, s, Event(ts, TryEntry(c))) == M.Attempt(cfg, s, c, ts)
  {
  }

  lemma RunFromUnfolds(cfg: Config, s: State, ts: int)
    requires ts < cfg.endTs && !s.threw
    ensures RunFrom(cfg, s, ts) == RunFrom(cfg, BarStep(cfg, s, ts), ts + BAR)
  {
  }

  lemma RunFromEnds(cfg: Config, s: State, ts: int)
    requires ts >= cfg.endTs || s.threw
    ensures RunFrom(cfg, s, ts) == s
  {
  }

  lemma {:induction false} ReachedUnfolds(cfg: Config, tried: seq<Candidate>, ts: int)
    requires ts < cfg.endTs
    ensures tried + Reached(cfg, DueFrom(cfg, ts))
         == (tried + Reached(cfg, Due(cfg, ts)))
            + if AllSizable(cfg, Due(cfg, ts)) then Reached(cfg, DueFrom(cfg, ts + BAR)) else []
  {
    hide Due, Reached, AllSizable;
    ReachedConcat(cfg, Due(cfg, ts), DueFrom(cfg, ts + BAR));
    ReachedIsPrefix(cfg, Due(cfg, ts));
  }

  lemma ReachedEnds(cfg: Config, tried: seq<Candidate>, ts: int)
    ensures ts >= cfg.endTs ==> tried + Reached(cfg, DueFrom(cfg, ts)) == tried
  {
  }

  /** One more candidate of a bar. */
  lemma {:induction false} ReachedOne(cfg: Config, due: seq<Candidate>, k: nat)
    ensures Reached(cfg, due[..0]) == []
    ensures k < |due| && AllSizable(cfg, due[..k]) ==>
              && Reached(cfg, due[..k + 1]) == Reached(cfg, due[..k]) + [due[k]]
              && (AllSizable(cfg, due[..k + 1]) <==> !Unsizable(cfg, due[k]))
              && (Unsizable(cfg, due[k]) ==> Reached(cfg, due[..k + 1]) == Reached(cfg, due))
  {
    hide Unsizable;
    if k < |due| {
      var a, c := due[..k], due[k];
      assert due[..k + 1] == a + [c] && due == (a + [c]) + due[k + 1..];
      ReachedConcat(cfg, a, [c]);
      ReachedConcat(cfg, a + [c], due[k + 1..]);
      ReachedIsPrefix(cfg, a);
      SizableConcat(cfg, a, [c]);
      assert Reached(cfg, [c]) == [c];
    }
  }

  method GroupByEntry(candidates: seq<Candidate>, endTs: int) returns (byTs: map<int, seq<Candidate>>, start: int)
    ensures start == StartTs(candidates, endTs)
    ensures forall ts :: EnteringAt(candidates, ts) == if ts in byTs then byTs[ts] else []
  {
    byTs, start := map[], endTs;
    for k := 0 to |candidates|
      invariant start == StartTs(candidates[..k], endTs)
      invariant forall ts :: EnteringAt(candidates[..k], ts) == if ts in byTs then byTs[ts] else []
    {
      var c := candidates[k];
      assert candidates[..k + 1][..k] == candidates[..k];
      byTs := byTs[c.entryTs := (if c.entryTs in byTs then byTs[c.entryTs] else []) + [c]];
      if c.entryTs < start {
        start := c.entryTs;
      }
    }
    assert candidates[..|candidates|] == candidates;
  }

  /**
   * A whole run. `events` is every step it took, in order: the caps hold after each of them, and
   * what the run returns is what they add up to. No result means that sizing threw.
   */
  method RunBook(cfg: Config) returns (result: Option<BookResult>, ghost events: seq<Event>)
    ensures Run(cfg) == Replay(cfg, START, events) && InOrder(events)
    ensures forall k :: 0 <= k <= |events| ==> Caps(cfg, Replay(cfg, START, events[..k]).open)
    ensures result == ResultOf(cfg)
    ensures result.Some? ==> Run(cfg).open == [] && result.value.tally.taken == |result.value.trades|
    ensures TriedIn(events) == CandidatesTried(cfg)
  {
    var byTs, start := GroupByEntry(cfg.candidates, cfg.endTs);
    var book := new Book(cfg);
    var clock := book.PassWindow(byTs, start);
    if book.threw {
      result := None;
    } else {
      book.CloseWindow(clock);
      result := Some(BookResult(Sort(book.trades, ListedBefore), book.tally, cfg.betaOf.Some?));
    }
    events := book.events;
    CapsAtEveryInstant(cfg, events);
    BalancedAlways(cfg, events);
  }

  /** The published result: trades listed by entry time and name. */
  function ResultOf(cfg: Config): Option<BookResult> {
    var s := Run(cfg);
    if s.threw then None else Some(BookResult(Sort(s.trades, ListedBefore), s.tally, cfg.betaOf.Some?))
  }

  lemma CapsAtEveryInstant(cfg: Config, events: seq<Event>)
    ensures forall k :: 0 <= k <= |events| ==> Caps(cfg, Replay(cfg, START, events[..k]).open)
  {
    forall k | 0 <= k <= |events| ensures Caps(cfg, Replay(cfg, START, events[..k]).open) {
      CapsAlways(cfg, events[..k]);
    }
  }
}
