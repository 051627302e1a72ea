/** What the marks behind the halts are: the peak, and the equity at the first bar of a day or a week. */
module BookMarks {
  import opened Basics
  import opened BookModel
  import opened BookSafety

  ghost function StateAt(cfg: Config, events: seq<Event>, k: nat): State
    requires k <= |events|
  {
    Replay(cfg, START, events[..k])
  }

  ghost function EquityAt(cfg: Config, events: seq<Event>, k: nat): real
    requires k <= |events|
  {
    Equity(StateAt(cfg, events, k), cfg.sBtBps)
  }

  lemma EarlierState(cfg: Config, events: seq<Event>, n: nat, k: nat)
    requires k <= n <= |events|
    ensures StateAt(cfg, events[..n], k) == StateAt(cfg, events, k)
  {
    assert events[..n][..k] == events[..k];
  }

  lemma NextState(cfg: Config, events: seq<Event>, n: nat)
    requires n < |events|
    ensures StateAt(cfg, events, n + 1) == Step(cfg, StateAt(cfg, events, n), events[n])
  {
    assert events[..n + 1][..n] == events[..n];
  }

  /** A step that ends a bar or closes a position: the source looks for a new peak after it. */
  ghost predicate Looks(s: State, e: Event, t: State) {
    !s.threw && (e.action.CloseTheBar? || |t.open| < |s.open|)
  }

  ghost function KeyOf(weekly: bool, ts: int): int {
    if weekly then WeekOf(DateOf(ts)) else DateOf(ts)
  }

  ghost function MarkAt(s: State, weekly: bool): Watermark {
    if weekly then s.week else s.day
  }

  /** Days are 86,400 seconds; two days share a week when they share the Monday on or before them, as day 4 was one. */
  lemma DatesAndWeeks(ts: int, day: int, other: int)
    ensures DateOf(ts) == day <==> 86_400 * day <= ts < 86_400 * (day + 1)
    ensures WeekOf(day) == WeekOf(other) <==> day - (day - 4) % 7 == other - (other - 4) % 7
  {
    var q, r := ts / 86_400, ts % 86_400;
    assert ts == 86_400 * q + r;
    assert (day + 3) % 7 == (day - 4) % 7 && (other + 3) % 7 == (other - 4) % 7;
  }

  lemma {:induction false} AttemptKeepsMarks(cfg: Config, s: State, c: Candidate, ts: int)
    ensures var t := Attempt(cfg, s, c, ts);
            t.peakEquity == s.peakEquity && t.day == s.day && t.week == s.week && |t.open| >= |s.open|
  {
    hide FailedGates, NewPosition, NotionalUsd, BuyFill, EntryOpenRiskUsd, AppliedBeta;
  }

  lemma {:induction false} DropLooks(cfg: Config, s: State, i: nat, bar: Bar, reason: Reason, rawExit: real,
      fillExit: real)
    requires i < |s.open|
    ensures var t := Drop(cfg, s, i, bar, reason, rawExit, fillExit);
            && t.peakEquity == Max(s.peakEquity, Equity(t, cfg.sBtBps))
            && t.day == s.day && t.week == s.week && |t.open| == |s.open| - 1 && t.threw == s.threw
  {
    hide CloseTrade, Advance, Sum, PairPnl;
  }

  /** Only such a step moves the peak, and only to the equity it leaves; only a bar's start moves the other marks. */
  lemma {:induction false} MarksOfStep(cfg: Config, s: State, e: Event)
    ensures var t := Step(cfg, s, e);
            && t.peakEquity == (if Looks(s, e, t) then Max(s.peakEquity, Equity(t, cfg.sBtBps)) else s.peakEquity)
            && forall weekly :: MarkAt(t, weekly) ==
                 if s.threw || !e.action.OpenTheBar? || MarkAt(s, weekly).key == Some(KeyOf(weekly, e.ts))
                 then MarkAt(s, weekly) else Watermark(Some(KeyOf(weekly, e.ts)), Equity(s, cfg.sBtBps))
  {
    hide Drop, Attempt, Equity, GapExit, Manage, WindowExit, OnlyTrailed, AdmitsOrNot;
    if !s.threw {
      if e.action.OpenTheBar? || e.action.CloseTheBar? {
        MarksOfBar(cfg, s, e);
      } else if e.action.TryEntry? {
        AttemptKeepsMarks(cfg, s, e.action.c, e.ts);
      } else {
        var x := StepEffect(cfg, s, e);
        match x
        case Dropped(i, bar, reason, rawExit, fillExit) => DropLooks(cfg, s, i, bar, reason, rawExit, fillExit);
        case Tried(c) => AttemptKeepsMarks(cfg, s, c, e.ts);
        case Moved(i) =>
        case Quiet =>
      }
    }
  }

  lemma MarksOfBar(cfg: Config, s: State, e: Event)
    requires !s.threw && (e.action.OpenTheBar? || e.action.CloseTheBar?)
    ensures var t := Step(cfg, s, e);
            && t.open == s.open && Equity(t, cfg.sBtBps) == Equity(s, cfg.sBtBps)
            && t.peakEquity
                == (if e.action.CloseTheBar? then Max(s.peakEquity, Equity(s, cfg.sBtBps)) else s.peakEquity)
            && forall weekly :: MarkAt(t, weekly) ==
                 if !e.action.OpenTheBar? || MarkAt(s, weekly).key == Some(KeyOf(weekly, e.ts))
                 then MarkAt(s, weekly) else Watermark(Some(KeyOf(weekly, e.ts)), Equity(s, cfg.sBtBps))
  {
    hide Sum, MarkOf;
  }

  // ----- the peak

  ghost predicate LooksAt(cfg: Config, events: seq<Event>, k: nat)
    requires k < |events|
  {
    Looks(StateAt(cfg, events, k), events[k], StateAt(cfg, events, k + 1))
  }

  ghost predicate ReachedAt(cfg: Config, events: seq<Event>, k: nat, equity: real)
    requires k < |events|
  {
    LooksAt(cfg, events, k) && EquityAt(cfg, events, k + 1) == equity
  }

  /** At every instant of every run the peak is the greatest equity after a bar's end or a close so far, or zero. */
  lemma {:induction false} PeakIsGreatest(cfg: Config, events: seq<Event>)
    ensures var peak := Replay(cfg, START, events).peakEquity;
            && peak >= 0.0
            && (forall k :: 0 <= k < |events| && LooksAt(cfg, events, k) ==> EquityAt(cfg, events, k + 1) <= peak)
            && (peak == 0.0 || exists k :: 0 <= k < |events| && ReachedAt(cfg, events, k, peak))
  {
    hide Step, Looks, Equity, Replay;
    assert events[..|events|] == events;
    if events == [] {
      NothingReplayed(cfg);
    } else {
      var n := |events| - 1;
      PeakIsGreatest(cfg, events[..n]);
      NextState(cfg, events, n);
      MarksOfStep(cfg, StateAt(cfg, events, n), events[n]);
      forall k | 0 <= k < n
        ensures LooksAt(cfg, events, k) == LooksAt(cfg, events[..n], k)
        ensures EquityAt(cfg, events, k + 1) == EquityAt(cfg, events[..n], k + 1)
      {
        EarlierState(cfg, events, n, k);
        EarlierState(cfg, events, n, k + 1);
      }
      var before, peak := StateAt(cfg, events, n).peakEquity, StateAt(cfg, events, n + 1).peakEquity;
      if peak == before && before != 0.0 {
        var k :| 0 <= k < n && ReachedAt(cfg, events[..n], k, before);
        assert LooksAt(cfg, events, k) && ReachedAt(cfg, events, k, peak);
      } else if peak != before {
        assert ReachedAt(cfg, events, n, peak);
      }
    }
  }

  lemma NothingReplayed(cfg: Config)
    ensures Replay(cfg, START, []) == START
  {
  }

  // ----- the day and the week

  /** Bar k is the first of its day or week, which is the current one. */
  ghost predicate FirstOf(events: seq<Event>, weekly: bool, k: nat)
    requires k < |events|
  {
    && events[k].action.OpenTheBar?
    && (forall j :: 0 <= j < k && events[j].action.OpenTheBar? ==>
          KeyOf(weekly, events[j].ts) != KeyOf(weekly, events[k].ts))
    && (forall j :: k < j < |events| && events[j].action.OpenTheBar? ==>
          KeyOf(weekly, events[j].ts) == KeyOf(weekly, events[k].ts))
  }

  ghost predicate Opened(events: seq<Event>, weekly: bool, key: int) {
    exists j :: 0 <= j < |events| && events[j].action.OpenTheBar? && KeyOf(weekly, events[j].ts) == key
  }

  lemma {:induction false} MarkedKeyWasOpened(cfg: Config, events: seq<Event>, weekly: bool)
    ensures var key := MarkAt(Replay(cfg, START, events), weekly).key; key.Some? ==> Opened(events, weekly, key.value)
  {
    hide Step, KeyOf, Equity;
    if events != [] {
      var n := |events| - 1;
      var s := Replay(cfg, START, events[..n]);
      MarkedKeyWasOpened(cfg, events[..n], weekly);
      MarksOfStep(cfg, s, events[n]);
      var key := MarkAt(Replay(cfg, START, events), weekly).key;
      if key.Some? && Opened(events[..n], weekly, key.value) {
        var j :| 0 <= j < n && events[..n][j].action.OpenTheBar? && KeyOf(weekly, events[..n][j].ts) == key.value;
        assert events[j] == events[..n][j];
      }
    }
  }

  lemma ThrowStays(cfg: Config, s: State, e: Event)
    ensures s.threw ==> Step(cfg, s, e) == s
  {
  }

  /** The mark of the current day or week is the equity the book stood at before the first bar of it. */
  lemma {:induction false} MarkIsFirstBar(cfg: Config, events: seq<Event>, weekly: bool, k: nat)
    requires k < |events| && FirstOf(events, weekly, k) && !Replay(cfg, START, events).threw
    ensures MarkAt(Replay(cfg, START, events), weekly)
            == Watermark(Some(KeyOf(weekly, events[k].ts)), EquityAt(cfg, events, k))
  {
    hide Step, KeyOf, Equity;
    var n := |events| - 1;
    var s := Replay(cfg, START, events[..n]);
    ThrowStays(cfg, s, events[n]);
    MarksOfStep(cfg, s, events[n]);
    if k == n {
      MarkedKeyWasOpened(cfg, events[..n], weekly);
      NotOpenedBefore(events, weekly);
    } else {
      StillFirst(events, weekly, k);
      MarkIsFirstBar(cfg, events[..n], weekly, k);
      EarlierState(cfg, events, n, k);
    }
  }

  lemma NotOpenedBefore(events: seq<Event>, weekly: bool)
    requires events != [] && FirstOf(events, weekly, |events| - 1)
    ensures !Opened(events[..|events| - 1], weekly, KeyOf(weekly, events[|events| - 1].ts))
  {
    hide KeyOf;
    var n := |events| - 1;
    assert forall j :: 0 <= j < n ==> events[..n][j] == events[j];
  }

  lemma StillFirst(events: seq<Event>, weekly: bool, k: nat)
    requires k < |events| - 1 && FirstOf(events, weekly, k)
    ensures FirstOf(events[..|events| - 1], weekly, k)
    ensures var e := events[|events| - 1]; e.action.OpenTheBar? ==> KeyOf(weekly, e.ts) == KeyOf(weekly, events[k].ts)
  {
    hide KeyOf;
  }

  lemma {:induction false} CurrentHasFirst(events: seq<Event>, weekly: bool) returns (k: nat)
    requires InOrder(events) && exists j :: 0 <= j < |events| && events[j].action.OpenTheBar?
    ensures k < |events| && FirstOf(events, weekly, k)
  {
    hide KeyOf;
    var n := |events| - 1;
    var last := events[n];
    if j :| 0 <= j < n && events[..n][j].action.OpenTheBar? {
      var first := CurrentHasFirst(events[..n], weekly);
      if last.action.OpenTheBar? && KeyOf(weekly, last.ts) != KeyOf(weekly, events[first].ts) {
        k := n;
        KeysRise(events, weekly, first);
      } else {
        k := first;
        FirstGoesOn(events, weekly, first);
      }
    } else {
      k := n;
      forall i | 0 <= i < n ensures !events[i].action.OpenTheBar? {
        assert events[..n][i] == events[i];
      }
    }
  }

  lemma FirstGoesOn(events: seq<Event>, weekly: bool, k: nat)
    requires k < |events| - 1 && FirstOf(events[..|events| - 1], weekly, k)
    requires var e := events[|events| - 1]; e.action.OpenTheBar? ==> KeyOf(weekly, e.ts) == KeyOf(weekly, events[k].ts)
    ensures FirstOf(events, weekly, k)
  {
    hide KeyOf;
    assert forall j :: 0 <= j < |events| - 1 ==> events[..|events| - 1][j] == events[j];
  }

  lemma KeysRise(events: seq<Event>, weekly: bool, first: nat)
    requires InOrder(events) && first < |events| - 1 && FirstOf(events[..|events| - 1], weekly, first)
    requires events[|events| - 1].action.OpenTheBar?
    requires KeyOf(weekly, events[|events| - 1].ts) != KeyOf(weekly, events[first].ts)
    ensures FirstOf(events, weekly, |events| - 1)
  {
    var n := |events| - 1;
    forall j | 0 <= j < n && events[j].action.OpenTheBar?
      ensures KeyOf(weekly, events[j].ts) != KeyOf(weekly, events[n].ts)
    {
      assert events[..n][j] == events[j] && events[..n][first] == events[first];
      KeyRises(weekly, events[j].ts, events[first].ts);
      KeyRises(weekly, events[first].ts, events[n].ts);
    }
  }

  lemma KeyRises(weekly: bool, ts: int, later: int)
    ensures ts <= later ==> KeyOf(weekly, ts) <= KeyOf(weekly, later)
  {
  }

  // ----- the halts

  /** What the halts let through. */
  lemma {:induction false} AdmittedAboveHalts(cfg: Config, s: State, t: State, ts: int, c: Candidate, q: Quote)
    requires Admits(cfg, s, t, ts, c, q)
    ensures var now := Equity(s, cfg.sBtBps);
            && s.day.equity - now < DAILY_HALT_USD
            && s.week.equity - now < WEEKLY_HALT_USD
            && s.peakEquity - now < -BOOK_HALT_USD
            && -(PairPnl(s, c.productId) + Sum(s.open, PairMarkOf(c.productId, cfg.sBtBps))) < BACKSTOP_PAIR_USD
  {
    hide Sum, Count, QuoteOf, ValidStop, StopBps, CostBps, NewPosition, Equity, PairPnl;
    Passes(cfg, s, c, ts, q, DailyHalt);
    Passes(cfg, s, c, ts, q, WeeklyHalt);
    Passes(cfg, s, c, ts, q, BookHalt);
    Passes(cfg, s, c, ts, q, PairBackstop);
  }

  /** Step n is an attempt that opens a position. */
  ghost predicate EntersAt(cfg: Config, events: seq<Event>, n: nat)
    requires n < |events|
  {
    events[n].action.TryEntry? && |StateAt(cfg, events, n + 1).open| > |StateAt(cfg, events, n).open|
  }

  lemma {:induction false} EntryIsAdmitted(cfg: Config, s: State, e: Event) returns (q: Quote)
    requires e.action.TryEntry? && |Step(cfg, s, e).open| > |s.open|
    ensures !s.threw && Admits(cfg, s, Step(cfg, s, e), e.ts, e.action.c, q)
  {
    hide Attempt, Admits;
    AttemptAdmitsOrNot(cfg, s, e.action.c, e.ts);
    q :| Admits(cfg, s, Step(cfg, s, e), e.ts, e.action.c, q);
  }

  /**
   * No position is ever opened with equity $240 under where the day began, $480 under where the week
   * began, $1,600 under the highest point after any earlier bar or close, or under zero, or with $500
   * lost on the pair.
   */
  lemma {:induction false} EntriesRespectHalts(cfg: Config, events: seq<Event>, n: nat)
    requires n < |events| && EntersAt(cfg, events, n)
    ensures var now, s := EquityAt(cfg, events, n), StateAt(cfg, events, n);
            var pair := events[n].action.c.productId;
            && (forall k :: 0 <= k < n && FirstOf(events[..n], false, k) ==> EquityAt(cfg, events, k) - now < 240.0)
            && (forall k :: 0 <= k < n && FirstOf(events[..n], true, k) ==> EquityAt(cfg, events, k) - now < 480.0)
            && (forall k :: 0 <= k < n && LooksAt(cfg, events, k) ==> EquityAt(cfg, events, k + 1) - now < 1_600.0)
            && -now < 1_600.0
            && -(PairPnl(s, pair) + Sum(s.open, PairMarkOf(pair, cfg.sBtBps))) < 500.0
  {
    hide Step, Replay, Equity, Sum, PairPnl, FirstOf, Looks, Admits;
    var s, e := StateAt(cfg, events, n), events[n];
    NextState(cfg, events, n);
    var q := EntryIsAdmitted(cfg, s, e);
    AdmittedAboveHalts(cfg, s, Step(cfg, s, e), e.ts, e.action.c, q);
    forall k, weekly | 0 <= k < n && FirstOf(events[..n], weekly, k)
      ensures MarkAt(s, weekly).equity == EquityAt(cfg, events, k)
    {
      MarkIsFirstBar(cfg, events[..n], weekly, k);
      EarlierState(cfg, events, n, k);
    }
    assert s.day == MarkAt(s, false) && s.week == MarkAt(s, true);
    PeakIsGreatest(cfg, events[..n]);
    forall k | 0 <= k < n && LooksAt(cfg, events, k) ensures EquityAt(cfg, events, k + 1) <= s.peakEquity {
      EarlierState(cfg, events, n, k);
      EarlierState(cfg, events, n, k + 1);
      assert LooksAt(cfg, events[..n], k);
    }
  }
}
