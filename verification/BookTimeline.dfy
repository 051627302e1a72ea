/** One pair, one position at a time: trades on a pair never overlap, and a stop only rises. */
module BookTimeline {
  import opened Basics
  import opened BookModel
  import opened BookSafety

  /** The re-entry wait, in seconds. */
  const WAIT := 86_400

  ghost predicate Follows(later: int, earlierId: string, laterId: string, exit: int) {
    earlierId == laterId ==> exit + WAIT <= later
  }

  /** Trades of one pair, in closing order, are a day apart. */
  ghost predicate TradesSpaced(trades: seq<Trade>) {
    forall i, j :: 0 <= i < j < |trades| ==>
      Follows(trades[j].entryTs, trades[i].productId, trades[j].productId, trades[i].exitTs)
  }

  /** A held pair was entered a day or more after its last exit. */
  ghost predicate OpenSpaced(s: State) {
    forall p :: p in s.open && p.productId in s.lastExit ==> s.lastExit[p.productId] + WAIT <= p.entryTs
  }

  ghost predicate ClosedBy(s: State, now: int) {
    forall t :: t in s.trades ==>
      && t.entryTs <= t.exitTs <= now
      && t.productId in s.lastExit && t.exitTs <= s.lastExit[t.productId]
  }

  ghost predicate OpenedBy(open: seq<Position>, now: int) {
    forall p :: p in open ==> p.entryTs <= p.lastBar.ts <= now
  }

  ghost predicate Timely(s: State, now: int) {
    && OnePositionPerPair(s.open)
    && TradesSpaced(s.trades) && OpenSpaced(s)
    && ClosedBy(s, now) && OpenedBy(s.open, now)
  }

  lemma TimelyAfterDrop(cfg: Config, s: State, now: int, i: nat, bar: Bar, reason: Reason, rawExit: real,
      fillExit: real)
    requires i < |s.open| && Timely(s, now) && s.open[i].lastBar.ts <= bar.ts <= now
    ensures Timely(Drop(cfg, s, i, bar, reason, rawExit, fillExit), now)
  {
    hide Drop, CloseTrade;
    DropLeaves(cfg, s, i, bar, reason, rawExit, fillExit);
    var p := s.open[i];
    var t := Drop(cfg, s, i, bar, reason, rawExit, fillExit);
    var trade := CloseTrade(p.(lastBar := bar), reason, rawExit, fillExit, reason == Window);
    assert p in s.open;
    assert forall q :: q in t.open ==> q in s.open && q.productId != p.productId;
    assert forall x :: x in t.trades ==> x in s.trades || x == trade;
    assert trade.entryTs <= trade.exitTs <= now;
    forall k | 0 <= k < |s.trades|
      ensures Follows(trade.entryTs, s.trades[k].productId, trade.productId, s.trades[k].exitTs)
    {
      assert s.trades[k] in s.trades;
    }
  }

  /** What the re-entry and the one-per-pair gate let through. */
  lemma WaitedAndFree(cfg: Config, s: State, t: State, now: int, c: Candidate, q: Quote)
    requires Admits(cfg, s, t, now, c, q)
    ensures c.productId in s.lastExit ==> s.lastExit[c.productId] + WAIT <= now
    ensures forall p :: p in s.open ==> p.productId != c.productId
    ensures var p := NewPosition(cfg, c, now, q); p.productId == c.productId && p.entryTs == now == p.lastBar.ts
  {
    hide Sum, Count, PairPnl, Equity, QuoteOf, ValidStop, StopBps, CostBps;
    Passes(cfg, s, c, now, q, Reentry);
    Passes(cfg, s, c, now, q, OnePerPair);
  }

  lemma TimelyAfterAttempt(cfg: Config, s: State, now: int, c: Candidate)
    requires Timely(s, now)
    ensures Timely(Attempt(cfg, s, c, now), now)
  {
    hide Attempt, NewPosition, FailedGates, QuoteOf, StopBps, CostBps;
    AttemptAdmitsOrNot(cfg, s, c, now);
    var t := Attempt(cfg, s, c, now);
    if t.open != s.open {
      var q :| Admits(cfg, s, t, now, c, q);
      WaitedAndFree(cfg, s, t, now, c, q);
      assert forall x :: x in t.open ==> x in s.open || x == NewPosition(cfg, c, now, q);
      assert forall k :: 0 <= k < |s.open| ==> s.open[k] in s.open;
    }
  }

  lemma TimelyAfterMove(s: State, t: State, i: nat, now: int)
    requires i < |s.open| && Timely(s, now) && Moves(s, t, i, now)
    ensures Timely(t, now)
  {
    var q := t.open[i];
    assert s.open[i] in s.open;
    assert q.entryTs <= q.lastBar.ts <= now;
    assert forall x :: x in t.open ==> x in s.open || x == q;
  }

  lemma TimelyStep(cfg: Config, s: State, now: int, e: Event)
    requires Timely(s, now) && now <= e.ts
    ensures Timely(Step(cfg, s, e), e.ts)
  {
    assert Timely(s, e.ts);
    var x := StepEffect(cfg, s, e);
    match x
    case Dropped(i, bar, reason, rawExit, fillExit) =>
      assert s.open[i] in s.open;
      TimelyAfterDrop(cfg, s, e.ts, i, bar, reason, rawExit, fillExit);
    case Moved(i) => TimelyAfterMove(s, Step(cfg, s, e), i, e.ts);
    case Tried(c) => TimelyAfterAttempt(cfg, s, e.ts, c);
    case Quiet =>
  }

  /**
   * Over every run: two trades on one pair never overlap, and the later begins a day or more after
   * the earlier ends.
   */
  lemma {:induction false} TimelyAlways(cfg: Config, events: seq<Event>, now: int)
    requires InOrder(events) && forall i :: 0 <= i < |events| ==> events[i].ts <= now
    ensures Timely(Replay(cfg, START, events), now)
  {
    if events != [] {
      var n := |events| - 1;
      TimelyAlways(cfg, events[..n], events[n].ts);
      TimelyStep(cfg, Replay(cfg, START, events[..n]), events[n].ts, events[n]);
    }
  }

  /** The same entry, seen at two times. */
  ghost predicate SameHolding(p: Position, q: Position) {
    p.productId == q.productId && p.entryTs == q.entryTs
  }

  /** While a pair is held since p's entry, or left after it, that entry time is spent. */
  ghost predicate Spent(p: Position, s: State) {
    || (exists q :: q in s.open && q.productId == p.productId && p.entryTs <= q.entryTs)
    || (p.productId in s.lastExit && p.entryTs <= s.lastExit[p.productId])
  }

  ghost predicate StopHeld(p: Position, s: State) {
    forall q :: q in s.open && SameHolding(p, q) ==> p.stop <= q.stop
  }

  lemma RatchetAfterDrop(cfg: Config, s: State, i: nat, bar: Bar, reason: Reason, rawExit: real, fillExit: real,
      p: Position)
    requires i < |s.open| && s.open[i].entryTs <= bar.ts && Spent(p, s) && StopHeld(p, s)
    requires OnePositionPerPair(s.open) && OpenSpaced(s)
    ensures Spent(p, Drop(cfg, s, i, bar, reason, rawExit, fillExit))
    ensures StopHeld(p, Drop(cfg, s, i, bar, reason, rawExit, fillExit))
  {
    hide Drop, CloseTrade, Spent;
    DropLeaves(cfg, s, i, bar, reason, rawExit, fillExit);
    SpentWithout(s, Drop(cfg, s, i, bar, reason, rawExit, fillExit), i, bar.ts, p);
  }

  lemma SpentWithout(s: State, t: State, i: nat, exit: int, p: Position)
    requires i < |s.open| && s.open[i].entryTs <= exit && Spent(p, s)
    requires OnePositionPerPair(s.open) && OpenSpaced(s)
    requires t.open == Without(s.open, i) && t.lastExit == s.lastExit[s.open[i].productId := exit]
    ensures Spent(p, t)
  {
    assert s.open[i] in s.open;
    if s.open[i].productId != p.productId {
      if q :| q in s.open && q.productId == p.productId && p.entryTs <= q.entryTs {
        var k :| 0 <= k < |s.open| && s.open[k] == q;
        assert t.open[if k < i then k else k - 1] == q;
      }
    } else if q :| q in s.open && q.productId == p.productId && p.entryTs <= q.entryTs {
      assert q == s.open[i];
    }
  }

  lemma RatchetAfterMove(s: State, t: State, i: nat, ts: int, p: Position)
    requires i < |s.open| && Moves(s, t, i, ts) && Spent(p, s) && StopHeld(p, s)
    ensures Spent(p, t) && StopHeld(p, t)
  {
    assert s.open[i] in s.open && t.open[i] in t.open;
    assert forall q :: q in t.open ==> q in s.open || q == t.open[i];
    if q :| q in s.open && q.productId == p.productId && p.entryTs <= q.entryTs {
      var k :| 0 <= k < |s.open| && s.open[k] == q;
      assert t.open[k] in t.open && t.open[k].productId == p.productId && p.entryTs <= t.open[k].entryTs;
    }
  }

  lemma RatchetAfterAttempt(cfg: Config, s: State, now: int, c: Candidate, p: Position)
    requires Spent(p, s) && StopHeld(p, s)
    ensures Spent(p, Attempt(cfg, s, c, now)) && StopHeld(p, Attempt(cfg, s, c, now))
  {
    hide Attempt, NewPosition, FailedGates, QuoteOf, StopBps, CostBps;
    AttemptAdmitsOrNot(cfg, s, c, now);
    var t := Attempt(cfg, s, c, now);
    assert forall x :: x in s.open ==> x in t.open;
    if t.open != s.open {
      var q :| Admits(cfg, s, t, now, c, q);
      WaitedAndFree(cfg, s, t, now, c, q);
      assert forall x :: x in t.open ==> x in s.open || x == NewPosition(cfg, c, now, q);
    }
  }

  lemma RatchetStep(cfg: Config, s: State, now: int, e: Event, p: Position)
    requires Timely(s, now) && now <= e.ts && Spent(p, s) && StopHeld(p, s)
    ensures Spent(p, Step(cfg, s, e)) && StopHeld(p, Step(cfg, s, e))
  {
    var x := StepEffect(cfg, s, e);
    match x
    case Dropped(i, bar, reason, rawExit, fillExit) =>
      assert s.open[i] in s.open;
      RatchetAfterDrop(cfg, s, i, bar, reason, rawExit, fillExit, p);
    case Moved(i) => RatchetAfterMove(s, Step(cfg, s, e), i, e.ts, p);
    case Tried(c) => RatchetAfterAttempt(cfg, s, e.ts, c, p);
    case Quiet =>
  }

  /** A position's stop never falls between any two instants of a run. */
  lemma {:induction false} StopNeverFalls(cfg: Config, past: seq<Event>, future: seq<Event>, p: Position)
    requires InOrder(past + future) && p in Replay(cfg, START, past).open
    ensures Spent(p, Replay(cfg, START, past + future)) && StopHeld(p, Replay(cfg, START, past + future))
  {
    if future == [] {
      assert past + future == past;
      PairIsUnique(cfg, past, p);
    } else {
      var n := |future| - 1;
      var before := past + future[..n];
      assert past + future == before + [future[n]];
      assert (before + [future[n]])[..|before|] == before;
      StopNeverFalls(cfg, past, future[..n], p);
      assert forall i :: 0 <= i < |before| ==> before[i] == (past + future)[i];
      assert (past + future)[|before|] == future[n];
      TimelyAlways(cfg, before, future[n].ts);
      RatchetStep(cfg, Replay(cfg, START, before), future[n].ts, future[n], p);
    }
  }

  lemma PairIsUnique(cfg: Config, events: seq<Event>, p: Position)
    requires p in Replay(cfg, START, events).open
    ensures forall q :: q in Replay(cfg, START, events).open && q.productId == p.productId ==> q == p
  {
    hide Replay, Sum, Count, NotionalHolds, AllSized;
    CapsAlways(cfg, events);
  }
}
