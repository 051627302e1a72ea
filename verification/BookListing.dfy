/** The order in which candidates are listed: when a run cannot depend on it, and that otherwise it can. */
module BookListing {
  import opened Basics
  import opened Sorting
  import opened BookModel
  import opened BookSafety
  import opened BookEquity
  import opened BookAttempts
  import opened BookWitnesses

  predicate SameRank(x: Candidate, y: Candidate) {
    x.entryTs == y.entryTs && x.classId == y.classId && x.productId == y.productId
  }

  /** No two different candidates share class, pair and entry time. */
  ghost predicate RanksDistinct(candidates: seq<Candidate>) {
    forall x, y :: x in candidates && y in candidates && SameRank(x, y) ==> x == y
  }

  ghost predicate Relisted(cfg: Config, other: Config) {
    other == cfg.(candidates := other.candidates)
  }

  // ----- the same candidates are due

  lemma {:induction false} EnteringCount(candidates: seq<Candidate>, ts: int, c: Candidate)
    ensures multiset(EnteringAt(candidates, ts))[c] == if c.entryTs == ts then multiset(candidates)[c] else 0
  {
    if candidates != [] {
      var n := |candidates| - 1;
      EnteringCount(candidates[..n], ts, c);
      LastCounts(candidates, c);
      if candidates[n].entryTs == ts {
        var more := EnteringAt(candidates[..n], ts) + [candidates[n]];
        assert more[..|more| - 1] == EnteringAt(candidates[..n], ts);
        LastCounts(more, c);
      }
    }
  }

  lemma LastCounts(s: seq<Candidate>, c: Candidate)
    requires s != []
    ensures multiset(s)[c] == multiset(s[..|s| - 1])[c] + if s[|s| - 1] == c then 1 else 0
  {
    assert s == s[..|s| - 1] + [s[|s| - 1]];
  }

  lemma {:induction false} SameEntering(a: seq<Candidate>, b: seq<Candidate>, ts: int)
    requires multiset(a) == multiset(b)
    ensures multiset(EnteringAt(a, ts)) == multiset(EnteringAt(b, ts))
  {
    forall c ensures multiset(EnteringAt(a, ts))[c] == multiset(EnteringAt(b, ts))[c] {
      EnteringCount(a, ts, c);
      EnteringCount(b, ts, c);
    }
  }

  lemma {:induction false} SameDue(cfg: Config, other: Config, ts: int)
    requires multiset(cfg.candidates) == multiset(other.candidates) && RanksDistinct(cfg.candidates)
    ensures Due(cfg, ts) == Due(other, ts)
  {
    hide Sort, RanksBefore, EnteringAt;
    SameEntering(cfg.candidates, other.candidates, ts);
    DueAreRanked(cfg, ts);
    DueAreRanked(other, ts);
    forall x, y | x in Due(cfg, ts) && y in Due(cfg, ts) && x != y ensures RanksBefore(x, y) || RanksBefore(y, x) {
      DueIsListed(cfg, ts, x);
      DueIsListed(cfg, ts, y);
      RankedApart(x, y);
    }
    SortedUnique(Due(cfg, ts), Due(other, ts), RanksBefore);
  }

  lemma {:induction false} DueIsListed(cfg: Config, ts: int, c: Candidate)
    requires c in Due(cfg, ts)
    ensures c in cfg.candidates && c.entryTs == ts
  {
    hide Sort, EnteringAt;
    EnteringCount(cfg.candidates, ts, c);
    assert c in multiset(Due(cfg, ts));
    assert c in multiset(cfg.candidates);
  }

  lemma RankedApart(x: Candidate, y: Candidate)
    requires x.entryTs == y.entryTs && !SameRank(x, y)
    ensures RanksBefore(x, y) || RanksBefore(y, x)
  {
    LessTotal(x.productId, y.productId);
  }

  lemma {:induction false} StartIsLeast(candidates: seq<Candidate>, endTs: int)
    ensures StartTs(candidates, endTs) <= endTs
    ensures forall c :: c in candidates ==> StartTs(candidates, endTs) <= c.entryTs
    ensures StartTs(candidates, endTs) == endTs || exists c ::
            c in candidates && c.entryTs == StartTs(candidates, endTs)
  {
    if candidates != [] {
      var n := |candidates| - 1;
      StartIsLeast(candidates[..n], endTs);
      assert candidates == candidates[..n] + [candidates[n]];
      assert candidates[n] in candidates;
    }
  }

  lemma {:induction false} SameStart(a: seq<Candidate>, b: seq<Candidate>, endTs: int)
    requires multiset(a) == multiset(b)
    ensures StartTs(a, endTs) == StartTs(b, endTs)
  {
    hide StartTs;
    StartIsLeast(a, endTs);
    StartIsLeast(b, endTs);
    forall c ensures c in a <==> c in b {
      assert c in a <==> c in multiset(a);
      assert c in b <==> c in multiset(b);
    }
  }

  // ----- the steps do not look at the list

  lemma SameDrop(cfg: Config, other: Config, s: State, i: nat, bar: Bar, reason: Reason, rawExit: real, fillExit: real)
    requires Relisted(cfg, other) && i < |s.open|
    ensures Drop(cfg, s, i, bar, reason, rawExit, fillExit) == Drop(other, s, i, bar, reason, rawExit, fillExit)
  {
    hide CloseTrade, Advance, Equity, PairPnl;
  }

  lemma SameExits(cfg: Config, other: Config, s: State, i: nat, ts: int)
    requires Relisted(cfg, other) && i < |s.open|
    ensures GapExit(cfg, s, i, ts) == GapExit(other, s, i, ts)
    ensures Manage(cfg, s, i, ts) == Manage(other, s, i, ts)
    ensures WindowExit(cfg, s, i) == WindowExit(other, s, i)
  {
    SameGapExit(cfg, other, s, i, ts);
    SameManage(cfg, other, s, i, ts);
    var bar := s.open[i].lastBar;
    SameDrop(cfg, other, s, i, bar, Window, bar.close, SellFill(bar.close, cfg.sBtBps));
  }

  lemma SameGapExit(cfg: Config, other: Config, s: State, i: nat, ts: int)
    requires Relisted(cfg, other) && i < |s.open|
    ensures GapExit(cfg, s, i, ts) == GapExit(other, s, i, ts)
  {
    hide Drop;
    var bar := BarAt(cfg, s.open[i].productId, ts);
    if bar.Some? {
      SameDrop(cfg, other, s, i, bar.value, Gap, bar.value.open, bar.value.open);
    }
  }

  lemma SameManage(cfg: Config, other: Config, s: State, i: nat, ts: int)
    requires Relisted(cfg, other) && i < |s.open|
    ensures Manage(cfg, s, i, ts) == Manage(other, s, i, ts)
  {
    hide Drop, IntrabarFill, StopFill, SellFill, Trailed;
    SameTrail(cfg, other, s.open[i], ts);
    var p := s.open[i];
    var found := if p.lastBar.ts == ts then Some(p.lastBar) else BarAt(cfg, p.productId, ts);
    if found.Some? {
      var bar := found.value;
      SameDrop(cfg, other, s, i, bar, Stop, p.stop,
          StopFill(p.stop, p.rawEntry, cfg.sBtBps, Atr1h(cfg, p.productId, ts)));
      SameDrop(cfg, other, s, i, bar, Rule, bar.open, SellFill(bar.open, cfg.sBtBps));
      SameDrop(cfg, other, s, i, bar, Rule, bar.close, SellFill(bar.close, cfg.sBtBps));
    }
  }

  lemma SameTrail(cfg: Config, other: Config, p: Position, ts: int)
    requires Relisted(cfg, other)
    ensures forall bar :: Trailed(cfg, p.(lastBar := bar)) == Trailed(other, p.(lastBar := bar))
    ensures BarAt(cfg, p.productId, ts) == BarAt(other, p.productId, ts)
    ensures Atr1h(cfg, p.productId, ts) == Atr1h(other, p.productId, ts)
  {
  }

  lemma {:induction false} SameGaps(cfg: Config, other: Config, s: State, ts: int, i: nat)
    requires Relisted(cfg, other)
    ensures GapPhase(cfg, s, ts, i) == GapPhase(other, s, ts, i)
    decreases |s.open| - i
  {
    hide CloseTrade, Advance, Equity, PairPnl;
    if i < |s.open| {
      SameExits(cfg, other, s, i, ts);
      var next := GapExit(cfg, s, i, ts);
      SameGaps(cfg, other, next, ts, if |next.open| < |s.open| then i else i + 1);
    }
  }

  lemma {:induction false} SameManaged(cfg: Config, other: Config, s: State, ts: int, i: nat)
    requires Relisted(cfg, other)
    ensures ManagePhase(cfg, s, ts, i) == ManagePhase(other, s, ts, i)
    decreases |s.open| - i
  {
    hide Manage;
    if i < |s.open| {
      SameExits(cfg, other, s, i, ts);
      ManageOneKeepsTally(cfg, s, i, ts);
      var next := Manage(cfg, s, i, ts);
      SameManaged(cfg, other, next, ts, if |next.open| < |s.open| then i else i + 1);
    }
  }

  lemma {:induction false} SameWindow(cfg: Config, other: Config, s: State)
    requires Relisted(cfg, other)
    ensures WindowPhase(cfg, s) == WindowPhase(other, s)
    decreases |s.open|
  {
    hide WindowExit, Manage, GapExit;
    if s.open != [] {
      SameExits(cfg, other, s, 0, 0);
      ShorterBook(cfg, s);
      SameWindow(cfg, other, WindowExit(cfg, s, 0));
    }
  }

  lemma {:induction false} SameAttempt(cfg: Config, other: Config, s: State, c: Candidate, ts: int)
    requires Relisted(cfg, other)
    ensures Attempt(cfg, s, c, ts) == Attempt(other, s, c, ts)
  {
    hide Decide, NotionalUsd, BuyFill, EntryOpenRiskUsd;
    var bar := BarAt(cfg, c.productId, ts);
    if bar.Some? && ValidStop(bar.value, c.stopDistance) && StopBps(bar.value, c.stopDistance) + CostBps(cfg) > 0.0 {
      FillIsPositive(cfg, bar.value);
      SameDecision(cfg, other, s, c, ts, QuoteOf(cfg, c, ts, bar.value));
    }
  }

  lemma {:induction false} SameDecision(cfg: Config, other: Config, s: State, c: Candidate, ts: int, q: Quote)
    requires Relisted(cfg, other) && q.bar.open > 0.0 && q.fillEntry > 0.0
    ensures Decide(cfg, s, c, ts, q) == Decide(other, s, c, ts, q)
  {
    hide FailedGates;
    SameGates(cfg, other, s, c, ts, q);
  }

  lemma {:induction false} SameGates(cfg: Config, other: Config, s: State, c: Candidate, ts: int, q: Quote)
    requires Relisted(cfg, other)
    ensures FailedGates(cfg, s, c, ts, q) == FailedGates(other, s, c, ts, q)
  {
    hide Sum, Count, PairPnl, Equity, HoldsPair, BetaWeighted;
    forall g ensures g in FailedGates(cfg, s, c, ts, q) <==> g in FailedGates(other, s, c, ts, q) {
    }
  }

  lemma {:induction false} SameEntries(cfg: Config, other: Config, s: State, due: seq<Candidate>, ts: int)
    requires Relisted(cfg, other)
    ensures EntryPhase(cfg, s, due, ts) == EntryPhase(other, s, due, ts)
    decreases |due|
  {
    hide Attempt;
    if due != [] && !s.threw {
      SameAttempt(cfg, other, s, due[0], ts);
      SameEntries(cfg, other, Attempt(cfg, s, due[0], ts), due[1..], ts);
    }
  }

  lemma {:induction false} SameBar(cfg: Config, other: Config, s: State, ts: int)
    requires Relisted(cfg, other) && Due(cfg, ts) == Due(other, ts)
    ensures BarStep(cfg, s, ts) == BarStep(other, s, ts)
  {
    hide GapPhase, EntryPhase, ManagePhase, Due, Equity;
    var begun := OpenBar(cfg, s, ts);
    SameGaps(cfg, other, begun, ts, 0);
    var gone := GapPhase(cfg, begun, ts, 0);
    SameEntries(cfg, other, gone, Due(cfg, ts), ts);
    SameManaged(cfg, other, EntryPhase(cfg, gone, Due(cfg, ts), ts), ts, 0);
  }

  lemma {:induction false} SameBars(cfg: Config, other: Config, s: State, ts: int)
    requires Relisted(cfg, other) && multiset(cfg.candidates) == multiset(other.candidates)
    requires RanksDistinct(cfg.candidates)
    ensures RunFrom(cfg, s, ts) == RunFrom(other, s, ts)
    decreases cfg.endTs - ts
  {
    hide BarStep, Due, RanksDistinct;
    if ts < cfg.endTs && !s.threw {
      SameDue(cfg, other, ts);
      SameBar(cfg, other, s, ts);
      SameBars(cfg, other, BarStep(cfg, s, ts), ts + BAR);
    }
  }

  /**
   * A run does not depend on the order in which its candidates are listed, when no two different
   * ones share class, pair and entry time.
   */
  lemma {:induction false} ListingDoesNotMatter(cfg: Config, other: Config)
    requires Relisted(cfg, other) && multiset(cfg.candidates) == multiset(other.candidates)
    requires RanksDistinct(cfg.candidates)
    ensures Run(cfg) == Run(other)
  {
    hide RunFrom, WindowPhase, StartTs, RanksDistinct;
    var start := StartTs(cfg.candidates, cfg.endTs);
    SameStart(cfg.candidates, other.candidates, cfg.endTs);
    SameBars(cfg, other, START, start);
    SameWindow(cfg, other, RunFrom(cfg, START, start));
  }

  // ----- and when it does

  /** The same trade, signalled a day later. */
  function Rival(): Candidate {
    Late(0.001).(signalDate := 1)
  }

  function Listed(candidates: seq<Candidate>): Config {
    Market(0.001, 0.9995, Daily(1.3, 1.0, 0.1), 0.0, None).(candidates := candidates)
  }

  lemma {:induction false} TiesStay(x: Candidate, y: Candidate)
    requires SameRank(x, y) && x.entryTs == LAST_BAR
    ensures Due(Listed([x, y]), LAST_BAR) == [x, y] && StartTs([x, y], DAY) == LAST_BAR
  {
    LessTotal(x.productId, y.productId);
    assert [x, y][..1] == [x] && [x][..0] == [];
    assert EnteringAt([x], LAST_BAR) == [x] && EnteringAt([x, y], LAST_BAR) == [x] + [y] == [x, y];
    assert Insert(x, [], RanksBefore) == [x] && Insert(y, [x], RanksBefore) == [x, y];
    assert Sort([x], RanksBefore) == [x];
    assert StartTs([], DAY) == DAY && StartTs([x], DAY) == LAST_BAR;
  }

  /** The first of two that tie is taken, and keeps the other out. */
  lemma {:induction false} FirstOfTwo(cfg: Config, x: Candidate, y: Candidate, bar: Bar)
    requires Taken(cfg, x, bar) && Due(cfg, x.entryTs) == [x, y] && SameRank(x, y) && x.stopDistance == y.stopDistance
    ensures var next := BarStep(cfg, START, x.entryTs);
            next.open == [Trailed(cfg, Entered(cfg, x, bar))] && next.trades == [] && !next.threw
  {
    hide Attempt, Manage, Due, Trailed, Entered, Equity;
    TakenAndTrailed(cfg, x, bar);
    NotThrown(cfg, x.entryTs);
    var begun := OpenBar(cfg, START, x.entryTs);
    assert begun.open == [] && GapPhase(cfg, begun, x.entryTs, 0) == begun;
    var first := Attempt(cfg, begun, x, x.entryTs);
    KeptOut(cfg, first, x, y, bar);
    var second := Attempt(cfg, first, y, x.entryTs);
    assert [x, y][1..] == [y] && [y][1..] == [] && EntryPhase(cfg, second, [], x.entryTs) == second;
    assert EntryPhase(cfg, first, [y], x.entryTs) == second && EntryPhase(cfg, begun, [x, y], x.entryTs) == second;
    OneManaged(cfg, second, x, bar);
    var managed := Manage(cfg, second, 0, x.entryTs);
    assert ManagePhase(cfg, managed, x.entryTs, 1) == managed;
  }

  lemma {:induction false} KeptOut(cfg: Config, s: State, x: Candidate, y: Candidate, bar: Bar)
    requires Taken(cfg, x, bar) && SameRank(x, y) && x.stopDistance == y.stopDistance
    requires s.open == [Entered(cfg, x, bar)] && !s.threw
    ensures var t := Attempt(cfg, s, y, x.entryTs); t.open == s.open && t.trades == s.trades && !t.threw
  {
    hide NotionalUsd, BuyFill, EntryOpenRiskUsd, Equity, Sum, Count;
    FillIsPositive(cfg, bar);
    var q := QuoteOf(cfg, y, x.entryTs, bar);
    assert s.open[0] in s.open && s.open[0].productId == y.productId;
    Passes(cfg, s, y, x.entryTs, q, OnePerPair);
  }

  lemma {:induction false} OneManaged(cfg: Config, s: State, x: Candidate, bar: Bar)
    requires Taken(cfg, x, bar) && s.open == [Entered(cfg, x, bar)]
    ensures Manage(cfg, s, 0, x.entryTs) == s.(open := [Trailed(cfg, Entered(cfg, x, bar))])
  {
    hide Trailed, NotionalUsd, BuyFill, EntryOpenRiskUsd;
    var p := Entered(cfg, x, bar);
    assert p.lastBar == bar && p.(lastBar := bar) == p;
    assert s.open[0 := Trailed(cfg, p)] == [Trailed(cfg, p)];
  }

  /** The run of two that tie trades the one listed first. */
  lemma {:induction false} FirstIsTraded(x: Candidate, y: Candidate)
    requires {x, y} == {Late(0.001), Rival()}
    ensures |Run(Listed([x, y])).trades| == 1 && Run(Listed([x, y])).trades[0].signalDate == x.signalDate
  {
    hide BarStep, Entered, CloseTrade, Advance, Equity, StartTs, Due, StopBps;
    var cfg, bar := Listed([x, y]), Bar(LAST_BAR, 1.0, 1.0, 0.9995, 1.0);
    StopInUnits(bar, 0.001);
    assert x.stopDistance == y.stopDistance == 0.001 && SameRank(x, y);
    assert Taken(cfg, x, bar);
    TiesStay(x, y);
    FirstOfTwo(cfg, x, y, bar);
    SignalOf(cfg, x, bar);
    var s := BarStep(cfg, START, LAST_BAR);
    assert RunFrom(cfg, s, DAY) == s && RunFrom(cfg, START, LAST_BAR) == s;
    ClosedOut(cfg, s);
  }

  lemma SignalOf(cfg: Config, x: Candidate, bar: Bar)
    requires Taken(cfg, x, bar)
    ensures Trailed(cfg, Entered(cfg, x, bar)).signalDate == x.signalDate
  {
    hide QuoteOf;
  }

  lemma {:induction false} ClosedOut(cfg: Config, s: State)
    requires |s.open| == 1 && s.trades == []
    ensures |WindowPhase(cfg, s).trades| == 1 && WindowPhase(cfg, s).trades[0].signalDate == s.open[0].signalDate
  {
    hide Equity, Advance, GrossBps, NetBps, PairPnl;
    var t := WindowExit(cfg, s, 0);
    assert t.open == [] && WindowPhase(cfg, t) == t;
  }

  /** Of two candidates that tie, which trade is made depends on how they are listed. */
  lemma {:induction false} ListingCanMatter()
    ensures var a, b := Listed([Late(0.001), Rival()]), Listed([Rival(), Late(0.001)]);
            && Relisted(a, b) && multiset(a.candidates) == multiset(b.candidates)
            && Run(a).trades != Run(b).trades
  {
    hide Run;
    FirstIsTraded(Late(0.001), Rival());
    FirstIsTraded(Rival(), Late(0.001));
  }
}
