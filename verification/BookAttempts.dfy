/** Which candidates a run tries: those on the quarter-hour grid of the earliest entry, up to one it cannot size. */
module BookAttempts {
  import opened Basics
  import opened Sorting
  import opened BookModel
  import opened BookSafety

  function OnGrid(start: int, endTs: int): Candidate -> bool {
    (c: Candidate) => start <= c.entryTs < endTs && (c.entryTs - start) % BAR == 0
  }

  lemma {:induction false} GapKeepsTally(cfg: Config, s: State, ts: int, i: nat)
    ensures GapPhase(cfg, s, ts, i).tally == s.tally && GapPhase(cfg, s, ts, i).threw == s.threw
    decreases |s.open| - i
  {
    hide Advance, CloseTrade, Equity;
    if i < |s.open| {
      var next := GapExit(cfg, s, i, ts);
      GapKeepsTally(cfg, next, ts, if |next.open| < |s.open| then i else i + 1);
    }
  }

  lemma DropKeepsTally(cfg: Config, s: State, i: nat, bar: Bar, reason: Reason, rawExit: real, fillExit: real)
    requires i < |s.open|
    ensures Drop(cfg, s, i, bar, reason, rawExit, fillExit).tally == s.tally
            && Drop(cfg, s, i, bar, reason, rawExit, fillExit).threw == s.threw
    ensures |Drop(cfg, s, i, bar, reason, rawExit, fillExit).open| == |s.open| - 1
  {
    hide Advance, CloseTrade, Equity;
  }

  lemma {:induction false} ManageOneKeepsTally(cfg: Config, s: State, i: nat, ts: int)
    requires i < |s.open|
    ensures Manage(cfg, s, i, ts).tally == s.tally && Manage(cfg, s, i, ts).threw == s.threw
    ensures |s.open| - 1 <= |Manage(cfg, s, i, ts).open| <= |s.open|
  {
    hide Drop, Trailed, IntrabarFill, StopFill, SellFill, Atr1h, BarAt;
    var p := s.open[i];
    var bar := if p.lastBar.ts == ts then p.lastBar
      else if BarAt(cfg, p.productId, ts).Some? then BarAt(cfg, p.productId, ts).value else p.lastBar;
    DropKeepsTally(cfg, s, i, bar, Stop, p.stop, StopFill(p.stop, p.rawEntry, cfg.sBtBps, Atr1h(cfg, p.productId, ts)));
    DropKeepsTally(cfg, s, i, bar, Rule, bar.open, SellFill(bar.open, cfg.sBtBps));
    DropKeepsTally(cfg, s, i, bar, Rule, bar.close, SellFill(bar.close, cfg.sBtBps));
  }

  lemma {:induction false} ManageKeepsTally(cfg: Config, s: State, ts: int, i: nat)
    ensures ManagePhase(cfg, s, ts, i).tally == s.tally && ManagePhase(cfg, s, ts, i).threw == s.threw
    decreases |s.open| - i
  {
    hide Manage;
    if i < |s.open| {
      ManageOneKeepsTally(cfg, s, i, ts);
      var next := Manage(cfg, s, i, ts);
      ManageKeepsTally(cfg, next, ts, if |next.open| < |s.open| then i else i + 1);
    }
  }

  lemma {:induction false} WindowKeepsTally(cfg: Config, s: State)
    ensures WindowPhase(cfg, s).tally == s.tally
    decreases |s.open|
  {
    hide Advance, CloseTrade, Equity;
    if s.open != [] {
      WindowKeepsTally(cfg, WindowExit(cfg, s, 0));
    }
  }

  lemma {:induction false} EntriesAttempt(cfg: Config, s: State, due: seq<Candidate>, ts: int)
    requires !EntryPhase(cfg, s, due, ts).threw
    ensures EntryPhase(cfg, s, due, ts).tally.attempts == s.tally.attempts + |due|
    decreases |due|
  {
    hide FailedGates, QuoteOf, NewPosition;
    if due != [] && !s.threw {
      EntriesAttempt(cfg, Attempt(cfg, s, due[0], ts), due[1..], ts);
    }
  }

  lemma {:induction false} EnteringCounts(candidates: seq<Candidate>, ts: int, endTs: int)
    requires ts < endTs
    ensures Count(candidates, OnGrid(ts, endTs))
            == |EnteringAt(candidates, ts)| + Count(candidates, OnGrid(ts + BAR, endTs))
  {
    if candidates != [] {
      var n := |candidates| - 1;
      EnteringCounts(candidates[..n], ts, endTs);
      GridSplits(candidates[n], ts, endTs);
    }
  }

  lemma GridSplits(c: Candidate, ts: int, endTs: int)
    requires ts < endTs
    ensures OnGrid(ts, endTs)(c) <==> c.entryTs == ts || OnGrid(ts + BAR, endTs)(c)
    ensures !(c.entryTs == ts && OnGrid(ts + BAR, endTs)(c))
  {
  }

  lemma {:induction false} BarAttempts(cfg: Config, s: State, ts: int)
    requires !BarStep(cfg, s, ts).threw
    ensures BarStep(cfg, s, ts).tally.attempts == s.tally.attempts + |EnteringAt(cfg.candidates, ts)|
  {
    hide GapPhase, ManagePhase, EntryPhase, Equity, Sort;
    var gone := GapPhase(cfg, OpenBar(cfg, s, ts), ts, 0);
    GapKeepsTally(cfg, OpenBar(cfg, s, ts), ts, 0);
    var entered := EntryPhase(cfg, gone, Due(cfg, ts), ts);
    ManageKeepsTally(cfg, entered, ts, 0);
    EntriesAttempt(cfg, gone, Due(cfg, ts), ts);
  }

  lemma {:induction false} BarsAttempt(cfg: Config, s: State, ts: int)
    requires !RunFrom(cfg, s, ts).threw
    ensures RunFrom(cfg, s, ts).tally.attempts == s.tally.attempts + Count(cfg.candidates, OnGrid(ts, cfg.endTs))
    decreases cfg.endTs - ts
  {
    hide BarStep, Count;
    if ts >= cfg.endTs || s.threw {
      if ts >= cfg.endTs {
        NoneAfterEnd(cfg.candidates, ts, cfg.endTs);
      }
    } else {
      EnteringCounts(cfg.candidates, ts, cfg.endTs);
      BarsAttempt(cfg, BarStep(cfg, s, ts), ts + BAR);
      ThrowStays(cfg, BarStep(cfg, s, ts), ts + BAR);
      BarAttempts(cfg, s, ts);
    }
  }

  lemma ThrowStays(cfg: Config, s: State, ts: int)
    ensures s.threw ==> RunFrom(cfg, s, ts).threw
  {
  }

  lemma {:induction false} NoneAfterEnd(candidates: seq<Candidate>, ts: int, endTs: int)
    requires ts >= endTs
    ensures Count(candidates, OnGrid(ts, endTs)) == 0
  {
    if candidates != [] {
      NoneAfterEnd(candidates[..|candidates| - 1], ts, endTs);
    }
  }

  /** A run tries every candidate on the grid of the earliest entry and before the end once, and no other. */
  lemma {:induction false} AttemptsAreTheGridCandidates(cfg: Config)
    requires !Run(cfg).threw
    ensures Run(cfg).tally.attempts == Count(cfg.candidates, OnGrid(StartTs(cfg.candidates, cfg.endTs), cfg.endTs))
  {
    hide RunFrom, WindowPhase, Count;
    var start := StartTs(cfg.candidates, cfg.endTs);
    BarsAttempt(cfg, START, start);
    WindowKeepsTally(cfg, RunFrom(cfg, START, start));
  }

  // ----- which candidates those are

  function Keep(candidates: seq<Candidate>, p: Candidate -> bool): seq<Candidate> {
    if candidates == [] then []
    else
      var c := candidates[|candidates| - 1];
      Keep(candidates[..|candidates| - 1], p) + if p(c) then [c] else []
  }

  lemma {:induction false} KeepSplits(candidates: seq<Candidate>, ts: int, endTs: int)
    requires ts < endTs
    ensures multiset(Keep(candidates, OnGrid(ts, endTs)))
         == multiset(EnteringAt(candidates, ts)) + multiset(Keep(candidates, OnGrid(ts + BAR, endTs)))
  {
    if candidates != [] {
      var n := |candidates| - 1;
      KeepSplits(candidates[..n], ts, endTs);
      GridSplits(candidates[n], ts, endTs);
    }
  }

  lemma {:induction false} KeepNone(candidates: seq<Candidate>, ts: int, endTs: int)
    requires ts >= endTs
    ensures Keep(candidates, OnGrid(ts, endTs)) == []
  {
    if candidates != [] {
      KeepNone(candidates[..|candidates| - 1], ts, endTs);
    }
  }

  lemma {:induction false} DueAreOnGrid(cfg: Config, ts: int)
    ensures multiset(DueFrom(cfg, ts)) == multiset(Keep(cfg.candidates, OnGrid(ts, cfg.endTs)))
    decreases cfg.endTs - ts
  {
    hide Keep, Sort, RanksBefore;
    if ts < cfg.endTs {
      DueAreOnGrid(cfg, ts + BAR);
      KeepSplits(cfg.candidates, ts, cfg.endTs);
    } else {
      KeepNone(cfg.candidates, ts, cfg.endTs);
    }
  }

  // ----- where a run stops

  /** Its bar is there with a usable stop, but stop and cost together are not positive: sizing throws. */
  predicate Unsizable(cfg: Config, c: Candidate) {
    var bar := BarAt(cfg, c.productId, c.entryTs);
    && bar.Some? && ValidStop(bar.value, c.stopDistance)
    && StopBps(bar.value, c.stopDistance) + CostBps(cfg) <= 0.0
  }

  predicate AllSizable(cfg: Config, due: seq<Candidate>) {
    forall k :: 0 <= k < |due| ==> !Unsizable(cfg, due[k])
  }

  /** The candidates up to the first that cannot be sized, and that one. */
  function Reached(cfg: Config, due: seq<Candidate>): seq<Candidate> {
    if due == [] then []
    else [due[0]] + if Unsizable(cfg, due[0]) then [] else Reached(cfg, due[1..])
  }

  lemma {:induction false} ReachedConcat(cfg: Config, a: seq<Candidate>, b: seq<Candidate>)
    ensures Reached(cfg, a + b) == if AllSizable(cfg, a) then a + Reached(cfg, b) else Reached(cfg, a)
  {
    hide Unsizable, Reached, AllSizable;
    if a == [] {
      NothingToSize(cfg);
      assert a + b == b && a + Reached(cfg, b) == Reached(cfg, b);
    } else {
      var c, rest := a[0], a[1..];
      assert (a + b)[0] == c && (a + b)[1..] == rest + b;
      ReachedHead(cfg, a + b);
      ReachedHead(cfg, a);
      SizableHead(cfg, a);
      if !Unsizable(cfg, c) {
        ReachedConcat(cfg, rest, b);
        assert [c] + (rest + Reached(cfg, b)) == a + Reached(cfg, b);
      }
    }
  }

  lemma ReachedHead(cfg: Config, due: seq<Candidate>)
    requires due != []
    ensures Reached(cfg, due) == if Unsizable(cfg, due[0]) then [due[0]] else [due[0]] + Reached(cfg, due[1..])
  {
    hide Unsizable;
    assert [due[0]] + [] == [due[0]];
  }

  lemma SizableHead(cfg: Config, due: seq<Candidate>)
    requires due != []
    ensures AllSizable(cfg, due) <==> !Unsizable(cfg, due[0]) && AllSizable(cfg, due[1..])
  {
    hide Unsizable;
    assert forall k :: 0 < k < |due| ==> due[k] == due[1..][k - 1];
  }

  /** No candidate that cannot be sized comes before another. */
  ghost predicate NoneBlocks(cfg: Config, due: seq<Candidate>) {
    forall k :: 0 <= k < |due| - 1 ==> !Unsizable(cfg, due[k])
  }

  lemma {:induction false} BlocksHead(cfg: Config, due: seq<Candidate>)
    requires due != []
    ensures NoneBlocks(cfg, due) <==> |due| == 1 || (!Unsizable(cfg, due[0]) && NoneBlocks(cfg, due[1..]))
  {
    hide Unsizable;
    assert forall k :: 0 < k < |due| ==> due[k] == due[1..][k - 1];
  }

  /** Everyone is reached when all but the last can be sized, and nobody is reached twice. */
  lemma {:induction false} ReachedIsPrefix(cfg: Config, due: seq<Candidate>)
    ensures Reached(cfg, due) <= due
    ensures |Reached(cfg, due)| == |due| <==> NoneBlocks(cfg, due)
    ensures AllSizable(cfg, due) ==> Reached(cfg, due) == due
  {
    hide Unsizable, Reached, AllSizable, NoneBlocks;
    if due == [] {
      NothingReached(cfg);
    } else {
      ReachedHead(cfg, due);
      BlocksHead(cfg, due);
      SizableHead(cfg, due);
      ReachedIsPrefix(cfg, due[1..]);
      assert due == [due[0]] + due[1..];
    }
  }

  lemma AttemptThrows(cfg: Config, s: State, c: Candidate)
    requires !s.threw
    ensures Attempt(cfg, s, c, c.entryTs).threw <==> Unsizable(cfg, c)
  {
    hide FailedGates, NewPosition, QuoteOf;
  }

  lemma {:induction false} EntryThrows(cfg: Config, s: State, due: seq<Candidate>, ts: int)
    requires !s.threw && forall k :: 0 <= k < |due| ==> due[k].entryTs == ts
    ensures EntryPhase(cfg, s, due, ts).threw <==> !AllSizable(cfg, due)
    decreases |due|
  {
    hide Attempt, Unsizable;
    if due != [] {
      AttemptThrows(cfg, s, due[0]);
      SizableHead(cfg, due);
      var next := Attempt(cfg, s, due[0], ts);
      if !next.threw {
        EntryThrows(cfg, next, due[1..], ts);
      }
    }
  }

  lemma {:induction false} EnteringThen(candidates: seq<Candidate>, ts: int)
    ensures forall c :: c in EnteringAt(candidates, ts) <==> c in candidates && c.entryTs == ts
  {
    if candidates != [] {
      var n := |candidates| - 1;
      EnteringThen(candidates[..n], ts);
      assert candidates == candidates[..n] + [candidates[n]];
    }
  }

  lemma {:induction false} DueThen(cfg: Config, ts: int)
    ensures forall c :: c in Due(cfg, ts) <==> c in cfg.candidates && c.entryTs == ts
  {
    hide Sort;
    EnteringThen(cfg.candidates, ts);
    assert forall c :: c in Due(cfg, ts) <==> c in multiset(Due(cfg, ts));
    assert forall c :: c in EnteringAt(cfg.candidates, ts) <==> c in multiset(EnteringAt(cfg.candidates, ts));
  }

  lemma {:induction false} BarThrows(cfg: Config, s: State, ts: int)
    requires !s.threw
    ensures BarStep(cfg, s, ts).threw <==> !AllSizable(cfg, Due(cfg, ts))
  {
    hide GapPhase, ManagePhase, EntryPhase, Equity, Due, AllSizable;
    var gone := GapPhase(cfg, OpenBar(cfg, s, ts), ts, 0);
    GapKeepsTally(cfg, OpenBar(cfg, s, ts), ts, 0);
    DueThen(cfg, ts);
    EntryThrows(cfg, gone, Due(cfg, ts), ts);
    ManageKeepsTally(cfg, EntryPhase(cfg, gone, Due(cfg, ts), ts), ts, 0);
  }

  lemma {:induction false} SizableConcat(cfg: Config, a: seq<Candidate>, b: seq<Candidate>)
    ensures AllSizable(cfg, a + b) <==> AllSizable(cfg, a) && AllSizable(cfg, b)
  {
    hide Unsizable;
    if AllSizable(cfg, a + b) {
      forall k | 0 <= k < |b| ensures !Unsizable(cfg, b[k]) {
        assert b[k] == (a + b)[|a| + k];
      }
      forall k | 0 <= k < |a| ensures !Unsizable(cfg, a[k]) {
        assert a[k] == (a + b)[k];
      }
    }
  }

  lemma {:induction false} BarsThrow(cfg: Config, s: State, ts: int)
    requires !s.threw
    ensures RunFrom(cfg, s, ts).threw <==> !AllSizable(cfg, DueFrom(cfg, ts))
    decreases cfg.endTs - ts
  {
    hide BarStep, Due, AllSizable;
    if ts < cfg.endTs {
      BarThrows(cfg, s, ts);
      SizableConcat(cfg, Due(cfg, ts), DueFrom(cfg, ts + BAR));
      var next := BarStep(cfg, s, ts);
      if next.threw {
        ThrowStays(cfg, next, ts + BAR);
      } else {
        BarsThrow(cfg, next, ts + BAR);
      }
    } else {
      NothingToSize(cfg);
    }
  }

  lemma NothingToSize(cfg: Config)
    ensures AllSizable(cfg, [])
  {
  }

  lemma {:induction false} WindowNeverThrows(cfg: Config, s: State)
    ensures WindowPhase(cfg, s).threw == s.threw
    decreases |s.open|
  {
    hide Advance, CloseTrade, Equity;
    if s.open != [] {
      WindowNeverThrows(cfg, WindowExit(cfg, s, 0));
    }
  }

  lemma {:induction false} KeepMembers(candidates: seq<Candidate>, p: Candidate -> bool)
    ensures forall c :: c in Keep(candidates, p) <==> c in candidates && p(c)
  {
    if candidates != [] {
      var n := |candidates| - 1;
      KeepMembers(candidates[..n], p);
      assert candidates == candidates[..n] + [candidates[n]];
    }
  }

  /** A run throws exactly when a candidate on the grid and before the end cannot be sized. */
  lemma {:induction false} RunThrowsExactly(cfg: Config)
    ensures Run(cfg).threw
       <==> exists c :: c in cfg.candidates && OnGrid(StartTs(cfg.candidates, cfg.endTs), cfg.endTs)(c)
                        && Unsizable(cfg, c)
  {
    hide RunFrom, WindowPhase, DueFrom, Keep, OnGrid, Unsizable, StartTs;
    var start := StartTs(cfg.candidates, cfg.endTs);
    var due := DueFrom(cfg, start);
    BarsThrow(cfg, START, start);
    WindowNeverThrows(cfg, RunFrom(cfg, START, start));
    DueAreOnGrid(cfg, start);
    KeepMembers(cfg.candidates, OnGrid(start, cfg.endTs));
    SameMembers(due, Keep(cfg.candidates, OnGrid(start, cfg.endTs)));
    if c :| c in cfg.candidates && OnGrid(start, cfg.endTs)(c) && Unsizable(cfg, c) {
      assert c in due;
    }
    if k :| 0 <= k < |due| && Unsizable(cfg, due[k]) {
      assert due[k] in due;
    }
  }

  lemma SameMembers(s: seq<Candidate>, t: seq<Candidate>)
    requires multiset(s) == multiset(t)
    ensures forall c :: c in s <==> c in t
  {
    forall c ensures c in s <==> c in t {
      assert c in s <==> c in multiset(s);
      assert c in t <==> c in multiset(t);
    }
  }

  // ----- what a run tries

  /** The candidates a run tries, in order: it stops at the first it cannot size. */
  function CandidatesTried(cfg: Config): seq<Candidate> {
    Reached(cfg, DueFrom(cfg, StartTs(cfg.candidates, cfg.endTs)))
  }

  /**
   * The candidates a run tries are among those on the grid of the earliest entry and before the end,
   * and exactly those, each as often as it is listed, when it does not throw.
   */
  lemma {:induction false} TriedAreTheGridCandidates(cfg: Config)
    ensures var onGrid := Keep(cfg.candidates, OnGrid(StartTs(cfg.candidates, cfg.endTs), cfg.endTs));
            && multiset(CandidatesTried(cfg)) <= multiset(onGrid)
            && (!Run(cfg).threw ==> multiset(CandidatesTried(cfg)) == multiset(onGrid))
  {
    hide Keep, DueFrom, StartTs, RunFrom, WindowPhase, Reached, AllSizable;
    var start := StartTs(cfg.candidates, cfg.endTs);
    var due := DueFrom(cfg, start);
    DueAreOnGrid(cfg, start);
    ReachedIsPrefix(cfg, due);
    PrefixWithin(CandidatesTried(cfg), due);
    BarsThrow(cfg, START, start);
    WindowNeverThrows(cfg, RunFrom(cfg, START, start));
  }

  lemma PrefixWithin(s: seq<Candidate>, t: seq<Candidate>)
    requires s <= t
    ensures multiset(s) <= multiset(t)
  {
    assert t == s + t[|s|..];
  }

  function Before(endTs: int): Candidate -> bool {
    (c: Candidate) => c.entryTs < endTs
  }

  lemma {:induction false} StartIsEarliest(candidates: seq<Candidate>, endTs: int)
    ensures StartTs(candidates, endTs) <= endTs
    ensures forall i :: 0 <= i < |candidates| ==> StartTs(candidates, endTs) <= MinInt(endTs, candidates[i].entryTs)
  {
    if candidates != [] {
      StartIsEarliest(candidates[..|candidates| - 1], endTs);
    }
  }

  /** Two filters, one inside the other, keep the same exactly when they agree on every element. */
  lemma {:induction false} KeepAlike(candidates: seq<Candidate>, p: Candidate -> bool, q: Candidate -> bool)
    requires forall i :: 0 <= i < |candidates| ==> p(candidates[i]) ==> q(candidates[i])
    ensures |Keep(candidates, p)| <= |Keep(candidates, q)|
    ensures |Keep(candidates, p)| == |Keep(candidates, q)|
       <==> forall i :: 0 <= i < |candidates| ==> q(candidates[i]) ==> p(candidates[i])
    ensures |Keep(candidates, p)| == |Keep(candidates, q)| ==> Keep(candidates, p) == Keep(candidates, q)
  {
    if candidates != [] {
      KeepAlike(candidates[..|candidates| - 1], p, q);
    }
  }

  /**
   * Every candidate before the end is tried if and only if all of them are on the grid of the
   * earliest, and sizing throws for none that another is due after.
   */
  lemma {:induction false} EveryoneIsTriedExactly(cfg: Config)
    ensures multiset(CandidatesTried(cfg)) == multiset(Keep(cfg.candidates, Before(cfg.endTs)))
       <==> NoneBlocks(cfg, DueFrom(cfg, StartTs(cfg.candidates, cfg.endTs)))
            && forall i :: 0 <= i < |cfg.candidates| && cfg.candidates[i].entryTs < cfg.endTs ==>
                 (cfg.candidates[i].entryTs - StartTs(cfg.candidates, cfg.endTs)) % BAR == 0
  {
    hide Keep, DueFrom, StartTs, Reached, NoneBlocks;
    var start := StartTs(cfg.candidates, cfg.endTs);
    var due := DueFrom(cfg, start);
    StartIsEarliest(cfg.candidates, cfg.endTs);
    DueAreOnGrid(cfg, start);
    ReachedIsPrefix(cfg, due);
    KeepAlike(cfg.candidates, OnGrid(start, cfg.endTs), Before(cfg.endTs));
    var kept, all := Keep(cfg.candidates, OnGrid(start, cfg.endTs)), Keep(cfg.candidates, Before(cfg.endTs));
    assert |multiset(kept)| == |kept| && |multiset(all)| == |all|;
    assert |multiset(due)| == |due| && |multiset(CandidatesTried(cfg))| == |CandidatesTried(cfg)|;
    assert |CandidatesTried(cfg)| == |due| ==> CandidatesTried(cfg) == due;
  }

  lemma {:induction false} OneSecondLate(cfg: Config, c: Candidate, d: Candidate)
    requires cfg.candidates == [c, d] && d.entryTs == c.entryTs + 1 && d.entryTs < cfg.endTs
    ensures CandidatesTried(cfg) == [c]
  {
    hide Unsizable, DueFrom, StartTs, Keep, OnGrid, Reached;
    OnlyTheFirst(c, d, cfg.endTs);
    DueAreOnGrid(cfg, c.entryTs);
    var due := DueFrom(cfg, c.entryTs);
    assert |multiset(due)| == |due| && due == [due[0]] && due[0] in multiset(due);
    ReachedHead(cfg, due);
    NothingReached(cfg);
    assert due[1..] == [] && [c] + [] == [c];
  }

  lemma OnlyTheFirst(c: Candidate, d: Candidate, endTs: int)
    requires d.entryTs == c.entryTs + 1 && d.entryTs < endTs
    ensures StartTs([c, d], endTs) == c.entryTs && Keep([c, d], OnGrid(c.entryTs, endTs)) == [c]
  {
    assert [c, d][..1] == [c] && [c][..0] == [];
    assert StartTs([c], endTs) == c.entryTs;
    assert !OnGrid(c.entryTs, endTs)(d) && OnGrid(c.entryTs, endTs)(c);
    assert Keep([c], OnGrid(c.entryTs, endTs)) == [c];
  }

  lemma NothingReached(cfg: Config)
    ensures Reached(cfg, []) == [] && NoneBlocks(cfg, [])
  {
  }
}
