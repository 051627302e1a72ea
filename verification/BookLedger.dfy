/** Conservation: attempts, entries, trades and dollars all reconcile at every instant of a run. */
module BookLedger {
  import opened Basics
  import opened BookModel
  import opened BookSafety

  function NetOf(t: Trade): real {
    t.netUsd
  }

  function NetOn(productId: string): Trade -> real {
    (t: Trade) => if t.productId == productId then t.netUsd else 0.0
  }

  function TakenRow(r: LogRow): bool {
    r.taken
  }

  function TakenAs(productId: string, ts: int): LogRow -> bool {
    (r: LogRow) => r.taken && r.productId == productId && r.entryTs == ts
  }

  function HeldAs(productId: string, ts: int): Position -> bool {
    (p: Position) => p.productId == productId && p.entryTs == ts
  }

  function ClosedAs(productId: string, ts: int): Trade -> bool {
    (t: Trade) => t.productId == productId && t.entryTs == ts
  }

  ghost predicate MoneyBalances(s: State) {
    && s.realized == Sum(s.trades, NetOf)
    && forall id :: PairPnl(s, id) == Sum(s.trades, NetOn(id))
  }

  ghost predicate CountsBalance(s: State) {
    var t := s.tally;
    && t.taken == |s.trades| + |s.open|
    && t.taken == Count(t.log, TakenRow)
    && t.attempts == t.noBar + t.invalidStop + |t.log|
    && t.hits == t.hitsByClass.a + t.hitsByClass.b
  }

  /** Each accepted attempt is one open position or one closed trade, and nothing else is. */
  ghost predicate EntriesBalance(s: State) {
    forall id, ts ::
      Count(s.tally.log, TakenAs(id, ts)) == Count(s.open, HeldAs(id, ts)) + Count(s.trades, ClosedAs(id, ts))
  }

  ghost predicate Balanced(s: State) {
    MoneyBalances(s) && CountsBalance(s) && EntriesBalance(s)
  }

  lemma BalancedAfterDrop(cfg: Config, s: State, i: nat, bar: Bar, reason: Reason, rawExit: real, fillExit: real)
    requires i < |s.open| && Balanced(s)
    ensures Balanced(Drop(cfg, s, i, bar, reason, rawExit, fillExit))
  {
    var p := s.open[i];
    var t := Drop(cfg, s, i, bar, reason, rawExit, fillExit);
    var trade := CloseTrade(p.(lastBar := bar), reason, rawExit, fillExit, reason == Window);
    assert t.trades == s.trades + [trade] && t.open == Without(s.open, i);
    SumConcat(s.trades, [trade], NetOf); SumOne(trade, NetOf);
    forall id ensures PairPnl(t, id) == Sum(t.trades, NetOn(id)) {
      SumConcat(s.trades, [trade], NetOn(id)); SumOne(trade, NetOn(id));
    }
    forall id, ts
      ensures Count(t.tally.log, TakenAs(id, ts)) == Count(t.open, HeldAs(id, ts)) + Count(t.trades, ClosedAs(id, ts))
    {
      CountConcat(s.trades, [trade], ClosedAs(id, ts)); CountOne(trade, ClosedAs(id, ts));
      CountSplice(s.open, i, p, HeldAs(id, ts));
    }
  }

  lemma EntriesAfterDecide(cfg: Config, s: State, c: Candidate, ts: int, q: Quote)
    requires q.bar.open > 0.0 && q.fillEntry > 0.0 && EntriesBalance(s)
    ensures EntriesBalance(Decide(cfg, s, c, ts, q))
  {
    var t := Decide(cfg, s, c, ts, q);
    var row := LogRow(c.productId, ts, FailedGates(cfg, s, c, ts, q) == {}, q.notional, q.addRisk);
    var p := NewPosition(cfg, c, ts, q);
    assert t.tally.log == s.tally.log + [row] && t.trades == s.trades;
    assert t.open == if row.taken then s.open + [p] else s.open;
    forall id, at
      ensures Count(t.tally.log, TakenAs(id, at)) == Count(t.open, HeldAs(id, at)) + Count(t.trades, ClosedAs(id, at))
    {
      CountConcat(s.tally.log, [row], TakenAs(id, at)); CountOne(row, TakenAs(id, at));
      CountConcat(s.open, [p], HeldAs(id, at)); CountOne(p, HeldAs(id, at));
    }
  }

  lemma CountsAfterDecide(cfg: Config, s: State, c: Candidate, ts: int, q: Quote)
    requires q.bar.open > 0.0 && q.fillEntry > 0.0 && CountsBalance(s)
    ensures CountsBalance(Decide(cfg, s, c, ts, q))
  {
    var row := LogRow(c.productId, ts, FailedGates(cfg, s, c, ts, q) == {}, q.notional, q.addRisk);
    CountConcat(s.tally.log, [row], TakenRow); CountOne(row, TakenRow);
  }

  lemma BalancedAfterDecide(cfg: Config, s: State, c: Candidate, ts: int, q: Quote)
    requires q.bar.open > 0.0 && q.fillEntry > 0.0 && Balanced(s)
    ensures Balanced(Decide(cfg, s, c, ts, q))
  {
    var t := Decide(cfg, s, c, ts, q);
    EntriesAfterDecide(cfg, s, c, ts, q);
    CountsAfterDecide(cfg, s, c, ts, q);
    assert t.trades == s.trades && t.realized == s.realized && t.pairPnl == s.pairPnl;
    forall id ensures PairPnl(t, id) == Sum(t.trades, NetOn(id)) {
      assert PairPnl(t, id) == PairPnl(s, id);
    }
  }

  lemma BalancedAfterAttempt(cfg: Config, s: State, c: Candidate, ts: int)
    requires Balanced(s)
    ensures Balanced(Attempt(cfg, s, c, ts))
  {
    var bar := BarAt(cfg, c.productId, ts);
    if bar.Some? && ValidStop(bar.value, c.stopDistance) && StopBps(bar.value, c.stopDistance) + CostBps(cfg) > 0.0 {
      FillIsPositive(cfg, bar.value);
      BalancedAfterDecide(cfg, s, c, ts, QuoteOf(cfg, c, ts, bar.value));
    } else {
      BalancedUnlessTouched(s, Attempt(cfg, s, c, ts));
    }
  }

  lemma BalancedUnlessTouched(s: State, t: State)
    requires Balanced(s) && CountsBalance(t)
    requires t.trades == s.trades && t.realized == s.realized && t.pairPnl == s.pairPnl && t.tally.log == s.tally.log
    requires |t.open| == |s.open|
    requires forall id, ts :: Count(t.open, HeldAs(id, ts)) == Count(s.open, HeldAs(id, ts))
    ensures Balanced(t)
  {
    assert forall id :: PairPnl(t, id) == PairPnl(s, id);
  }

  lemma BalancedStep(cfg: Config, s: State, e: Event)
    requires Balanced(s)
    ensures Balanced(Step(cfg, s, e))
  {
    var t := Step(cfg, s, e);
    var x := StepEffect(cfg, s, e);
    match x
    case Dropped(i, bar, reason, rawExit, fillExit) => BalancedAfterDrop(cfg, s, i, bar, reason, rawExit, fillExit);
    case Moved(i) =>
      forall id, at ensures Count(t.open, HeldAs(id, at)) == Count(s.open, HeldAs(id, at)) {
        CountSplice(s.open, i, t.open[i], HeldAs(id, at));
      }
      BalancedUnlessTouched(s, t);
    case Tried(c) => BalancedAfterAttempt(cfg, s, c, e.ts);
    case Quiet => BalancedUnlessTouched(s, t);
  }

  /** At every instant of every run. */
  lemma {:induction false} BalancedAlways(cfg: Config, events: seq<Event>)
    ensures Balanced(Replay(cfg, START, events))
  {
    if events != [] {
      var n := |events| - 1;
      BalancedAlways(cfg, events[..n]);
      BalancedStep(cfg, Replay(cfg, START, events[..n]), events[n]);
    }
  }

  /** Once the book is flat, accepted entries and closed trades are the same multiset of pair and entry time. */
  lemma FlatBookReconciles(cfg: Config, events: seq<Event>)
    requires Replay(cfg, START, events).open == []
    ensures var s := Replay(cfg, START, events);
            && s.tally.taken == |s.trades|
            && s.realized == Sum(s.trades, NetOf)
            && forall id, ts :: Count(s.tally.log, TakenAs(id, ts)) == Count(s.trades, ClosedAs(id, ts))
  {
    BalancedAlways(cfg, events);
  }

  // ----- the most that were ever held

  lemma {:induction false} MaxOpenStep(cfg: Config, s: State, e: Event)
    requires |s.open| <= s.tally.maxOpen
    ensures Step(cfg, s, e).tally.maxOpen == MaxInt(s.tally.maxOpen, |Step(cfg, s, e).open|)
  {
    hide FailedGates, NewPosition, QuoteOf, Equity, Advance, CloseTrade, HasEffect;
    var x := StepEffect(cfg, s, e);
    MaxOpenAfter(cfg, s, Step(cfg, s, e), e.ts, x);
  }

  lemma {:induction false} MaxOpenAfter(cfg: Config, s: State, t: State, ts: int, x: Effect)
    requires HasEffect(cfg, s, t, ts, x) && |s.open| <= s.tally.maxOpen
    ensures t.tally.maxOpen == MaxInt(s.tally.maxOpen, |t.open|)
  {
    hide FailedGates, NewPosition, QuoteOf, Equity, Advance, CloseTrade, AdmitsOrNot, OnlyTrailed;
  }

  ghost predicate HeldAt(cfg: Config, events: seq<Event>, k: nat, count: nat)
    requires k <= |events|
  {
    |Replay(cfg, START, events[..k]).open| == count
  }

  /** The published maximum is the most positions held at any instant of the run, and it was held. */
  lemma {:induction false} MaxOpenIsReached(cfg: Config, events: seq<Event>)
    ensures forall k ::
            0 <= k <= |events| ==> |Replay(cfg, START, events[..k]).open| <= Replay(cfg, START, events).tally.maxOpen
    ensures exists k :: 0 <= k <= |events| && HeldAt(cfg, events, k, Replay(cfg, START, events).tally.maxOpen)
  {
    hide Step;
    var n, m := |events| - 1, Replay(cfg, START, events).tally.maxOpen;
    if events == [] {
      assert HeldAt(cfg, events, 0, m);
    } else {
      var before := Replay(cfg, START, events[..n]);
      MaxOpenIsReached(cfg, events[..n]);
      assert events[..n][..n] == events[..n];
      MaxOpenStep(cfg, before, events[n]);
      forall k | 0 <= k <= |events| ensures |Replay(cfg, START, events[..k]).open| <= m {
        assert if k <= n then events[..k] == events[..n][..k] else events[..k] == events;
      }
      var j :| 0 <= j <= n && HeldAt(cfg, events[..n], j, before.tally.maxOpen);
      assert events[..n][..j] == events[..j] && events[..n + 1] == events;
      assert HeldAt(cfg, events, j, m) || HeldAt(cfg, events, n + 1, m);
    }
  }
}
