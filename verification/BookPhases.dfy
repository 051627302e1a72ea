/** One bar from end to end: who is gapped out, who enters, and that everyone held is managed once. */
module BookPhases {
  import opened Basics
  import opened BookModel
  import opened BookSafety
  import opened BookAttempts
  import opened BookTrades
  import opened BookMarks

  ghost predicate GappedOut(cfg: Config, p: Position, ts: int) {
    p.productId in cfg.pairs && ts in cfg.pairs[p.productId].bars && cfg.pairs[p.productId].bars[ts].open <= p.stop
  }

  /** Those whose bar does not open at or below their stop, in order. */
  ghost function Ungapped(cfg: Config, open: seq<Position>, ts: int): seq<Position> {
    if open == [] then [] else (if GappedOut(cfg, open[0], ts) then [] else [open[0]]) + Ungapped(cfg, open[1..], ts)
  }

  ghost predicate Leaves(cfg: Config, p: Position, ts: int) {
    var bar := ManagedBar(cfg, p, ts);
    bar.Some? && (StopDue(p, bar.value) || RuleDueAtOpen(p, bar.value) || RuleDueAtClose(p, bar.value))
  }

  ghost predicate Remains(cfg: Config, p: Position, q: Position, ts: int) {
    var bar := ManagedBar(cfg, p, ts);
    if bar == None then q == p else StaysAs(cfg, p, bar.value, q)
  }

  /** Each of `before` leaves, or remains in `after`, managed once on its bar; the order is kept and nobody is added. */
  ghost predicate ManagedOnce(cfg: Config, before: seq<Position>, after: seq<Position>, ts: int) {
    if before == [] then after == []
    else if Leaves(cfg, before[0], ts) then ManagedOnce(cfg, before[1..], after, ts)
    else after != [] && Remains(cfg, before[0], after[0], ts) && ManagedOnce(cfg, before[1..], after[1..], ts)
  }

  lemma GapOnce(cfg: Config, s: State, i: nat, ts: int)
    requires !s.threw && i < |s.open|
    ensures var t := GapExit(cfg, s, i, ts);
            && !t.threw
            && t.open == if GappedOut(cfg, s.open[i], ts) then s.open[..i] + s.open[i + 1..] else s.open
  {
    hide Drop, ClosedAt;
    var bar := BarAt(cfg, s.open[i].productId, ts);
    if bar.Some? {
      DropLeaves(cfg, s, i, bar.value, Gap, bar.value.open, bar.value.open);
      DropKeepsTally(cfg, s, i, bar.value, Gap, bar.value.open, bar.value.open);
    }
  }

  lemma {:induction false} GapsLeave(cfg: Config, s: State, ts: int, i: nat)
    requires !s.threw && i <= |s.open|
    ensures GapPhase(cfg, s, ts, i).open == s.open[..i] + Ungapped(cfg, s.open[i..], ts)
    ensures !GapPhase(cfg, s, ts, i).threw
    decreases |s.open| - i
  {
    hide GapExit, GappedOut, Ungapped;
    UngappedFrom(cfg, s.open, i, ts);
    if i < |s.open| {
      GapOnce(cfg, s, i, ts);
      var t := GapExit(cfg, s, i, ts);
      if GappedOut(cfg, s.open[i], ts) {
        GapsLeave(cfg, t, ts, i);
        assert t.open[..i] == s.open[..i] && t.open[i..] == s.open[i + 1..];
      } else {
        GapsLeave(cfg, t, ts, i + 1);
        Moved(s.open, i, Ungapped(cfg, s.open[i + 1..], ts));
      }
    }
  }

  lemma Moved(open: seq<Position>, i: nat, rest: seq<Position>)
    requires i < |open|
    ensures open[..i + 1] + rest == open[..i] + ([open[i]] + rest)
  {
  }

  lemma {:induction false} UngappedFrom(cfg: Config, open: seq<Position>, i: nat, ts: int)
    requires i <= |open|
    ensures i == |open| ==> open[..i] + Ungapped(cfg, open[i..], ts) == open
    ensures i < |open| ==>
              Ungapped(cfg, open[i..], ts)
                == (if GappedOut(cfg, open[i], ts) then [] else [open[i]]) + Ungapped(cfg, open[i + 1..], ts)
    ensures i < |open| && GappedOut(cfg, open[i], ts) ==>
              Ungapped(cfg, open[i..], ts) == Ungapped(cfg, open[i + 1..], ts)
  {
    hide GappedOut;
    if i < |open| {
      assert open[i..][0] == open[i] && open[i..][1..] == open[i + 1..];
      assert [] + Ungapped(cfg, open[i + 1..], ts) == Ungapped(cfg, open[i + 1..], ts);
    } else {
      assert open[i..] == [];
    }
  }

  lemma {:induction false} OneManaged(cfg: Config, s: State, i: nat, ts: int)
    requires !s.threw && i < |s.open|
    ensures var t, p := Manage(cfg, s, i, ts), s.open[i];
            && !t.threw
            && if Leaves(cfg, p, ts) then t.open == s.open[..i] + s.open[i + 1..]
               else |t.open| == |s.open| && t.open == s.open[i := t.open[i]] && Remains(cfg, p, t.open[i], ts)
  {
    hide Manage, StaysAs, TradeOf, StopSlip, LessSpread;
    ManageDecides(cfg, s, i, ts);
    ManageOneKeepsTally(cfg, s, i, ts);
    assert Step(cfg, s, Event(ts, Action.ManageOne(i))) == Manage(cfg, s, i, ts);
    assert s.open == s.open[i := s.open[i]];
  }

  lemma {:induction false} AllManaged(cfg: Config, s: State, ts: int, i: nat)
    requires !s.threw && i <= |s.open|
    ensures var t := ManagePhase(cfg, s, ts, i);
            |t.open| >= i && t.open[..i] == s.open[..i] && ManagedOnce(cfg, s.open[i..], t.open[i..], ts)
    decreases |s.open| - i
  {
    hide Manage, Leaves, Remains;
    if i < |s.open| {
      OneManaged(cfg, s, i, ts);
      var t := Manage(cfg, s, i, ts);
      assert s.open[i..][0] == s.open[i] && s.open[i..][1..] == s.open[i + 1..];
      if Leaves(cfg, s.open[i], ts) {
        AllManaged(cfg, t, ts, i);
        assert t.open[..i] == s.open[..i] && t.open[i..] == s.open[i + 1..];
      } else {
        AllManaged(cfg, t, ts, i + 1);
        var end := ManagePhase(cfg, s, ts, i);
        assert end.open[..i + 1] == t.open[..i + 1] && end.open[i] == t.open[i];
        assert end.open[..i] == end.open[..i + 1][..i] == s.open[..i];
        assert end.open[i..][1..] == end.open[i + 1..] && t.open[i + 1..] == s.open[i + 1..];
      }
    } else {
      assert s.open[i..] == [];
    }
  }

  /** The first of `entered` were there before; the others entered on this bar. */
  ghost predicate EnteredAfter(entered: seq<Position>, there: seq<Position>, ts: int) {
    there <= entered && forall k :: |there| <= k < |entered| ==> entered[k].entryTs == ts
  }

  lemma {:induction false} EntriesAppend(cfg: Config, s: State, due: seq<Candidate>, ts: int)
    ensures EnteredAfter(EntryPhase(cfg, s, due, ts).open, s.open, ts)
    decreases |due|
  {
    hide Attempt, NewPosition, FailedGates, QuoteOf, StopBps, CostBps;
    if due != [] && !s.threw {
      AttemptAppends(cfg, s, due[0], ts);
      EntriesAppend(cfg, Attempt(cfg, s, due[0], ts), due[1..], ts);
    }
  }

  lemma AttemptAppends(cfg: Config, s: State, c: Candidate, ts: int)
    ensures EnteredAfter(Attempt(cfg, s, c, ts).open, s.open, ts)
  {
    hide Attempt, FailedGates;
    AttemptAdmitsOrNot(cfg, s, c, ts);
    var t := Attempt(cfg, s, c, ts);
    if t.open != s.open {
      var q :| Admits(cfg, s, t, ts, c, q);
    }
  }

  ghost predicate SameMarks(s: State, t: State) {
    t.day == s.day && t.week == s.week
  }

  lemma {:induction false} GapsKeepMarks(cfg: Config, s: State, ts: int, i: nat)
    requires !s.threw
    ensures SameMarks(s, GapPhase(cfg, s, ts, i))
    decreases |s.open| - i
  {
    hide Drop;
    if i < |s.open| {
      GapOnce(cfg, s, i, ts);
      var t, bar := GapExit(cfg, s, i, ts), BarAt(cfg, s.open[i].productId, ts);
      if bar.Some? {
        DropLooks(cfg, s, i, bar.value, Gap, bar.value.open, bar.value.open);
      }
      GapsKeepMarks(cfg, t, ts, if |t.open| < |s.open| then i else i + 1);
    }
  }

  lemma {:induction false} EntriesKeepMarks(cfg: Config, s: State, due: seq<Candidate>, ts: int)
    ensures SameMarks(s, EntryPhase(cfg, s, due, ts))
    decreases |due|
  {
    hide Attempt;
    if due != [] && !s.threw {
      AttemptKeepsMarks(cfg, s, due[0], ts);
      EntriesKeepMarks(cfg, Attempt(cfg, s, due[0], ts), due[1..], ts);
    }
  }

  lemma ManageKeepsMarks(cfg: Config, s: State, i: nat, ts: int)
    requires !s.threw && i < |s.open|
    ensures SameMarks(s, Manage(cfg, s, i, ts))
  {
    hide Manage, OnlyTrailed, Drop;
    var x := ManageEffect(cfg, s, i, ts);
    match x
    case Dropped(j, bar, reason, rawExit, fillExit) => DropLooks(cfg, s, j, bar, reason, rawExit, fillExit);
    case _ =>
  }

  lemma {:induction false} AllManagedKeepMarks(cfg: Config, s: State, ts: int, i: nat)
    requires !s.threw
    ensures SameMarks(s, ManagePhase(cfg, s, ts, i))
    decreases |s.open| - i
  {
    hide Manage;
    if i < |s.open| {
      ManageKeepsMarks(cfg, s, i, ts);
      ManageOneKeepsTally(cfg, s, i, ts);
      var t := Manage(cfg, s, i, ts);
      AllManagedKeepMarks(cfg, t, ts, if |t.open| < |s.open| then i else i + 1);
    }
  }

  /**
   * A bar starts by marking the equity it finds, when its day or its week is new, and ends by
   * looking for a new peak.
   */
  lemma {:induction false} BarMarksFirst(cfg: Config, s: State, ts: int)
    requires !s.threw && !BarStep(cfg, s, ts).threw
    ensures var t, found := BarStep(cfg, s, ts), Equity(s, cfg.sBtBps);
            && (forall weekly :: MarkAt(t, weekly) ==
                  if MarkAt(s, weekly).key == Some(KeyOf(weekly, ts)) then MarkAt(s, weekly)
                  else Watermark(Some(KeyOf(weekly, ts)), found))
            && t.peakEquity >= Equity(t, cfg.sBtBps)
  {
    hide GapPhase, EntryPhase, ManagePhase, Due, Sum;
    var begun := OpenBar(cfg, s, ts);
    GapsLeave(cfg, begun, ts, 0);
    GapsKeepMarks(cfg, begun, ts, 0);
    var gone := GapPhase(cfg, begun, ts, 0);
    EntriesKeepMarks(cfg, gone, Due(cfg, ts), ts);
    AllManagedKeepMarks(cfg, EntryPhase(cfg, gone, Due(cfg, ts), ts), ts, 0);
  }

  /**
   * One bar of a run: whoever opens at or below the stop is gone first, then candidates enter, then
   * everyone held, old and new, is managed exactly once on the bar.
   */
  lemma {:induction false} BarVisitsAll(cfg: Config, s: State, ts: int) returns (entered: seq<Position>)
    requires !s.threw && !BarStep(cfg, s, ts).threw
    ensures EnteredAfter(entered, Ungapped(cfg, s.open, ts), ts)
    ensures ManagedOnce(cfg, entered, BarStep(cfg, s, ts).open, ts)
  {
    hide GapPhase, EntryPhase, ManagePhase, Ungapped, ManagedOnce, Due, Equity;
    var begun := OpenBar(cfg, s, ts);
    GapsLeave(cfg, begun, ts, 0);
    assert begun.open[0..] == s.open && begun.open[..0] == [];
    var gone := GapPhase(cfg, begun, ts, 0);
    EntriesAppend(cfg, gone, Due(cfg, ts), ts);
    var state := EntryPhase(cfg, gone, Due(cfg, ts), ts);
    entered := state.open;
    AllManaged(cfg, state, ts, 0);
    var end := ManagePhase(cfg, state, ts, 0);
    assert entered[0..] == entered && end.open[0..] == end.open;
  }
}
