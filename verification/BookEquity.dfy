/** What the dollars of a position mean: marks, closed trades and the equity they add up to. */
module BookEquity {
  import opened Basics
  import opened Sorting
  import opened BookModel
  import opened BookRun

  /** Net dollars are the units' price move from fill to fill, less a taker fee on the entry value for each leg. */
  lemma {:induction false} NetDollars(p: Position, reason: Reason, rawExit: real, fillExit: real, windowMark: bool)
    ensures CloseTrade(p, reason, rawExit, fillExit, windowMark).netUsd
         == p.units * (fillExit - p.fillEntry) - 2.0 * (p.units * p.fillEntry * TAKER_FEE_BPS / 10_000.0)
  {
    var f, u := p.fillEntry, p.units;
    var q := (fillExit - f) / f;
    assert q * f == fillExit - f;
    assert NetBps(f, fillExit) / 10_000.0 == q - 2.0 * (TAKER_FEE_BPS / 10_000.0);
    TakenApart(q, 2.0 * (TAKER_FEE_BPS / 10_000.0), u, f);
    assert u * f * TAKER_FEE_BPS / 10_000.0 == (TAKER_FEE_BPS / 10_000.0) * u * f;
    assert q * u * f == u * (q * f);
  }

  lemma TakenApart(x: real, y: real, u: real, f: real)
    ensures (x - y) * u * f == x * u * f - y * u * f
  {
  }

  /** A position's mark is the net dollars of selling it at its last close. */
  lemma MarkIsExit(cfg: Config, s: State, i: nat)
    requires i < |s.open|
    ensures var p := s.open[i];
            MarkUsd(p, cfg.sBtBps)
                == CloseTrade(p, Window, p.lastBar.close, SellFill(p.lastBar.close, cfg.sBtBps), true).netUsd
  {
  }

  /** Selling a position at its mark moves dollars from open to realized and leaves equity alone. */
  lemma {:induction false} ExitAtMarkKeepsEquity(cfg: Config, s: State, i: nat)
    requires i < |s.open|
    ensures Equity(WindowExit(cfg, s, i), cfg.sBtBps) == Equity(s, cfg.sBtBps)
  {
    hide Sum, CloseTrade, MarkUsd, Advance;
    var p := s.open[i];
    MarkIsExit(cfg, s, i);
    SumSplice(s.open, i, p, MarkOf(cfg.sBtBps));
    assert p.(lastBar := p.lastBar) == p;
    assert MarkOf(cfg.sBtBps)(p) == MarkUsd(p, cfg.sBtBps);
  }

  /** The end of the window realizes exactly the equity the book stood at. */
  lemma {:induction false} WindowRealizesEquity(cfg: Config, s: State)
    ensures WindowPhase(cfg, s).realized == Equity(s, cfg.sBtBps)
    ensures WindowPhase(cfg, s).open == []
    decreases |s.open|
  {
    hide WindowExit, MarkUsd;
    if s.open != [] {
      ShorterBook(cfg, s);
      ExitAtMarkKeepsEquity(cfg, s, 0);
      WindowRealizesEquity(cfg, WindowExit(cfg, s, 0));
    }
  }

  lemma ShorterBook(cfg: Config, s: State)
    requires s.open != []
    ensures |WindowExit(cfg, s, 0).open| == |s.open| - 1
  {
    hide CloseTrade, Advance, Equity;
  }

  // ----- orders the run depends on

  lemma RanksAreOrder()
    ensures StrictWeakOrder(RanksBefore)
  {
    LessIsOrder();
    forall x: Candidate, y: Candidate ensures RanksBefore(x, y) ==> !RanksBefore(y, x) {
      LessTotal(x.productId, y.productId);
    }
    forall x: Candidate, y: Candidate, z: Candidate
      ensures RanksBefore(x, z) ==> RanksBefore(x, y) || RanksBefore(y, z) {
      assert Less(x.productId, z.productId) ==> Less(x.productId, y.productId) || Less(y.productId, z.productId);
    }
  }

  /** On a bar, every candidate entering then is due once: class A first, names ascending within a class. */
  lemma {:induction false} DueAreRanked(cfg: Config, ts: int)
    ensures multiset(Due(cfg, ts)) == multiset(EnteringAt(cfg.candidates, ts))
    ensures forall i, j :: 0 <= i < j < |Due(cfg, ts)| ==>
              var x, y := Due(cfg, ts)[i], Due(cfg, ts)[j];
              (y.classId == A ==> x.classId == A) && (x.classId == y.classId ==> !Less(y.productId, x.productId))
    ensures Sorted(Due(cfg, ts), RanksBefore)
  {
    hide Sort, RanksBefore;
    RanksAreOrder();
    SortSorted(EnteringAt(cfg.candidates, ts), RanksBefore);
    forall i, j | 0 <= i < j < |Due(cfg, ts)|
      ensures RanksAsSaid(Due(cfg, ts)[i], Due(cfg, ts)[j])
    {
      RanksSay(Due(cfg, ts)[i], Due(cfg, ts)[j]);
    }
  }

  ghost predicate RanksAsSaid(x: Candidate, y: Candidate) {
    (y.classId == A ==> x.classId == A) && (x.classId == y.classId ==> !Less(y.productId, x.productId))
  }

  lemma RanksSay(x: Candidate, y: Candidate)
    ensures !RanksBefore(y, x) ==> RanksAsSaid(x, y)
  {
  }

  lemma ListingIsOrder()
    ensures StrictWeakOrder(ListedBefore)
  {
    LessIsOrder();
    forall x: Trade, y: Trade ensures ListedBefore(x, y) ==> !ListedBefore(y, x) {
      LessTotal(x.productId, y.productId);
    }
    forall x: Trade, y: Trade, z: Trade ensures ListedBefore(x, z) ==> ListedBefore(x, y) || ListedBefore(y, z) {
      assert Less(x.productId, z.productId) ==> Less(x.productId, y.productId) || Less(y.productId, z.productId);
    }
  }

  /** The published trades are the run's, by entry time and then by name. */
  lemma {:induction false} ResultIsListed(cfg: Config)
    requires ResultOf(cfg).Some?
    ensures multiset(ResultOf(cfg).value.trades) == multiset(Run(cfg).trades)
    ensures forall i, j :: 0 <= i < j < |ResultOf(cfg).value.trades| ==>
              var x, y := ResultOf(cfg).value.trades[i], ResultOf(cfg).value.trades[j];
              x.entryTs <= y.entryTs && (x.entryTs == y.entryTs ==> !Less(y.productId, x.productId))
  {
    hide Sort, ListedBefore, Run;
    ListingIsOrder();
    SortSorted(Run(cfg).trades, ListedBefore);
    var listed := ResultOf(cfg).value.trades;
    forall i, j | 0 <= i < j < |listed| ensures ListedAsSaid(listed[i], listed[j]) {
      ListingSays(listed[i], listed[j]);
    }
  }

  ghost predicate ListedAsSaid(x: Trade, y: Trade) {
    x.entryTs <= y.entryTs && (x.entryTs == y.entryTs ==> !Less(y.productId, x.productId))
  }

  lemma ListingSays(x: Trade, y: Trade)
    ensures !ListedBefore(y, x) ==> ListedAsSaid(x, y)
  {
  }
}
