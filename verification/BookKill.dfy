/** The class kill: latched by the deepest fall of the closed-trade curve, never released. */
module BookKill {
  import opened Basics
  import opened BookModel
  import opened BookSafety

  function RIn(c: ClassId): Trade -> real {
    (t: Trade) => if t.classId == c then ROf(t) else 0.0
  }

  function UsdIn(c: ClassId): Trade -> real {
    (t: Trade) => if t.classId == c then t.netUsd else 0.0
  }

  /** The running total before any trade, and after each one. */
  function Path(trades: seq<Trade>, f: Trade -> real): (path: seq<real>)
    ensures |path| == |trades| + 1
  {
    if trades == [] then [0.0]
    else
      var n := |trades| - 1;
      var before := Path(trades[..n], f);
      before + [before[n] + f(trades[n])]
  }

  /** At some moment the path stood `limit` or more below an earlier point. */
  ghost predicate Fell(path: seq<real>, limit: real) {
    exists j, k :: 0 <= j <= k < |path| && path[j] - path[k] >= limit
  }

  /** Trades in closing order; it stays true however the curve recovers. */
  ghost predicate DrawdownHit(trades: seq<Trade>, c: ClassId) {
    Fell(Path(trades, RIn(c)), CLASS_R_KILL) || Fell(Path(trades, UsdIn(c)), CLASS_DOLLAR_BACKSTOP_USD)
  }

  ghost predicate IsPeak(peak: real, path: seq<real>) {
    peak in path && forall x :: x in path ==> x <= peak
  }

  lemma {:induction false} PathAppend(trades: seq<Trade>, t: Trade, f: Trade -> real)
    ensures Path(trades + [t], f) == Path(trades, f) + [Path(trades, f)[|trades|] + f(t)]
  {
    assert (trades + [t])[..|trades|] == trades;
  }

  lemma PeakAppend(peak: real, path: seq<real>, x: real)
    requires IsPeak(peak, path)
    ensures IsPeak(Max(peak, x), path + [x])
  {
    assert peak in path + [x] && x in path + [x];
    assert forall y :: y in path + [x] ==> y in path || y == x;
  }

  lemma FallAppend(peak: real, path: seq<real>, x: real, limit: real)
    requires IsPeak(peak, path)
    ensures Fell(path + [x], limit) <==> Fell(path, limit) || Max(peak, x) - x >= limit
  {
    var next, n := path + [x], |path|;
    var top :| 0 <= top < n && path[top] == peak;
    if Fell(next, limit) {
      var j, k :| 0 <= j <= k < |next| && next[j] - next[k] >= limit;
      if k < n {
        assert path[j] - path[k] >= limit;
      } else if j < n {
        assert path[j] in path;
      }
    }
    if Fell(path, limit) {
      var j, k :| 0 <= j <= k < n && path[j] - path[k] >= limit;
      assert next[j] - next[k] >= limit;
    }
    if Max(peak, x) - x >= limit {
      assert next[if peak < x then n else top] - next[n] >= limit;
    }
  }

  /** A step that does not move the path adds no fall. */
  lemma FallRepeat(peak: real, path: seq<real>, limit: real)
    requires path != [] && IsPeak(peak, path)
    ensures IsPeak(peak, path + [path[|path| - 1]])
    ensures Fell(path + [path[|path| - 1]], limit) <==> Fell(path, limit)
  {
    var last := path[|path| - 1];
    PeakAppend(peak, path, last);
    FallAppend(peak, path, last, limit);
    assert last in path;
    PeakGap(peak, path, limit);
  }

  lemma PeakGap(peak: real, path: seq<real>, limit: real)
    requires path != [] && IsPeak(peak, path)
    ensures peak - path[|path| - 1] >= limit ==> Fell(path, limit)
  {
    var j :| 0 <= j < |path| && path[j] == peak;
    assert j <= |path| - 1;
  }

  ghost predicate Tracks(curve: Curve, trades: seq<Trade>, c: ClassId) {
    var inR, inUsd := Path(trades, RIn(c)), Path(trades, UsdIn(c));
    && curve.r == inR[|trades|] && IsPeak(curve.peakR, inR)
    && curve.usd == inUsd[|trades|] && IsPeak(curve.peakUsd, inUsd)
    && (curve.killed <==> DrawdownHit(trades, c))
  }

  ghost predicate CurvesTrack(s: State) {
    Tracks(s.curves.a, s.trades, A) && Tracks(s.curves.b, s.trades, B)
  }

  lemma TracksAppend(curve: Curve, trades: seq<Trade>, c: ClassId, t: Trade)
    requires Tracks(curve, trades, c)
    ensures Tracks(if t.classId == c then Advance(curve, t) else curve, trades + [t], c)
  {
    hide ROf, Path, Fell, IsPeak;
    var inR, inUsd := Path(trades, RIn(c)), Path(trades, UsdIn(c));
    PathAppend(trades, t, RIn(c));
    PathAppend(trades, t, UsdIn(c));
    if t.classId == c {
      var r, usd := curve.r + ROf(t), curve.usd + t.netUsd;
      PeakAppend(curve.peakR, inR, r);
      PeakAppend(curve.peakUsd, inUsd, usd);
      FallAppend(curve.peakR, inR, r, CLASS_R_KILL);
      FallAppend(curve.peakUsd, inUsd, usd, CLASS_DOLLAR_BACKSTOP_USD);
    } else {
      FallRepeat(curve.peakR, inR, CLASS_R_KILL);
      FallRepeat(curve.peakUsd, inUsd, CLASS_DOLLAR_BACKSTOP_USD);
    }
  }

  /** The gate's own re-evaluation of the kill adds nothing to the latch. */
  lemma TrippedIsKilled(curve: Curve, trades: seq<Trade>, c: ClassId)
    requires Tracks(curve, trades, c)
    ensures ClassKillTripped(curve) ==> curve.killed
  {
    PeakGap(curve.peakR, Path(trades, RIn(c)), CLASS_R_KILL);
    PeakGap(curve.peakUsd, Path(trades, UsdIn(c)), CLASS_DOLLAR_BACKSTOP_USD);
  }

  lemma TracksAfterDrop(cfg: Config, s: State, i: nat, bar: Bar, reason: Reason, rawExit: real, fillExit: real)
    requires i < |s.open| && CurvesTrack(s)
    ensures CurvesTrack(Drop(cfg, s, i, bar, reason, rawExit, fillExit))
  {
    var trade := CloseTrade(s.open[i].(lastBar := bar), reason, rawExit, fillExit, reason == Window);
    TracksAppend(s.curves.a, s.trades, A, trade);
    TracksAppend(s.curves.b, s.trades, B, trade);
  }

  lemma TracksStep(cfg: Config, s: State, e: Event)
    requires CurvesTrack(s)
    ensures CurvesTrack(Step(cfg, s, e))
  {
    var x := StepEffect(cfg, s, e);
    match x
    case Dropped(i, bar, reason, rawExit, fillExit) => TracksAfterDrop(cfg, s, i, bar, reason, rawExit, fillExit);
    case Tried(c) => AttemptKeepsCurves(cfg, s, c, e.ts);
    case _ =>
  }

  /** An attempt moves no curve, except to latch one that is tripped. */
  lemma LatchOfAttempt(cfg: Config, s: State, c: Candidate, ts: int)
    ensures var t, curve := Attempt(cfg, s, c, ts), s.curves.Of(c.classId);
            || t.curves == s.curves
            || ((curve.killed || ClassKillTripped(curve))
                && t.curves == s.curves.With(c.classId, curve.(killed := true)))
  {
    hide Sum, Count, PairPnl, Equity, NotionalUsd, BuyFill, NewPosition, ClassKillTripped, EntryOpenRiskUsd;
    var bar := BarAt(cfg, c.productId, ts);
    if bar.Some? && ValidStop(bar.value, c.stopDistance) && StopBps(bar.value, c.stopDistance) + CostBps(cfg) > 0.0 {
      FillIsPositive(cfg, bar.value);
      Passes(cfg, s, c, ts, QuoteOf(cfg, c, ts, bar.value), ClassRKill);
    }
  }

  lemma AttemptKeepsCurves(cfg: Config, s: State, c: Candidate, ts: int)
    requires CurvesTrack(s)
    ensures Attempt(cfg, s, c, ts).curves == s.curves && Attempt(cfg, s, c, ts).trades == s.trades
  {
    hide Attempt, ClassKillTripped;
    TrippedIsKilled(s.curves.a, s.trades, A);
    TrippedIsKilled(s.curves.b, s.trades, B);
    LatchOfAttempt(cfg, s, c, ts);
    AttemptAdmitsOrNot(cfg, s, c, ts);
  }

  lemma AdmittedIsNotKilled(cfg: Config, s: State, t: State, ts: int, c: Candidate, q: Quote)
    requires Admits(cfg, s, t, ts, c, q)
    ensures !s.curves.Of(c.classId).killed && NewPosition(cfg, c, ts, q).classId == c.classId
  {
    hide Sum, Count, PairPnl, Equity, QuoteOf, ValidStop, StopBps, CostBps;
    Passes(cfg, s, c, ts, q, ClassRKill);
  }

  /** At every instant, a class is killed exactly when its closed trades have at some time fallen far enough. */
  lemma {:induction false} KilledExactlyOnDrawdown(cfg: Config, events: seq<Event>)
    ensures CurvesTrack(Replay(cfg, START, events))
  {
    if events == [] {
      NothingTracked(A);
      NothingTracked(B);
    } else {
      var n := |events| - 1;
      KilledExactlyOnDrawdown(cfg, events[..n]);
      TracksStep(cfg, Replay(cfg, START, events[..n]), events[n]);
    }
  }

  lemma NothingTracked(c: ClassId)
    ensures Tracks(START_CURVE, [], c)
  {
    assert Path([], RIn(c)) == [0.0] && Path([], UsdIn(c)) == [0.0];
  }

  function TradedIn(c: ClassId): Trade -> bool {
    (t: Trade) => t.classId == c
  }

  /** Entries of a class so far: held or closed. */
  function Entered(s: State, c: ClassId): nat {
    Count(s.open, OfClass(c)) + Count(s.trades, TradedIn(c))
  }

  lemma EnteredAfterDrop(cfg: Config, s: State, i: nat, bar: Bar, reason: Reason, rawExit: real, fillExit: real,
      c: ClassId)
    requires i < |s.open|
    ensures Entered(Drop(cfg, s, i, bar, reason, rawExit, fillExit), c) == Entered(s, c)
  {
    var trade := CloseTrade(s.open[i].(lastBar := bar), reason, rawExit, fillExit, reason == Window);
    CountSplice(s.open, i, s.open[i], OfClass(c));
    CountConcat(s.trades, [trade], TradedIn(c)); CountOne(trade, TradedIn(c));
  }

  lemma EnteredAfterMove(s: State, t: State, i: nat, ts: int, c: ClassId)
    requires i < |s.open| && Moves(s, t, i, ts)
    ensures Entered(t, c) == Entered(s, c)
  {
    CountSplice(s.open, i, t.open[i], OfClass(c));
  }

  lemma EnteredAfterAttempt(cfg: Config, s: State, candidate: Candidate, ts: int, c: ClassId)
    requires s.curves.Of(c).killed
    ensures Entered(Attempt(cfg, s, candidate, ts), c) == Entered(s, c)
  {
    hide Attempt, FailedGates, NewPosition, Count;
    AttemptAdmitsOrNot(cfg, s, candidate, ts);
    var t := Attempt(cfg, s, candidate, ts);
    if t.open != s.open {
      var q :| Admits(cfg, s, t, ts, candidate, q);
      AdmittedIsNotKilled(cfg, s, t, ts, candidate, q);
      var p := NewPosition(cfg, candidate, ts, q);
      CountConcat(s.open, [p], OfClass(c)); CountOne(p, OfClass(c));
    }
  }

  lemma KilledClassDoesNotEnter(cfg: Config, s: State, e: Event, c: ClassId)
    requires CurvesTrack(s) && s.curves.Of(c).killed
    ensures Entered(Step(cfg, s, e), c) == Entered(s, c)
    ensures Step(cfg, s, e).curves.Of(c).killed
  {
    var x := StepEffect(cfg, s, e);
    match x
    case Dropped(i, bar, reason, rawExit, fillExit) => EnteredAfterDrop(cfg, s, i, bar, reason, rawExit, fillExit, c);
    case Moved(i) => EnteredAfterMove(s, Step(cfg, s, e), i, e.ts, c);
    case Tried(candidate) =>
      AttemptKeepsCurves(cfg, s, candidate, e.ts);
      EnteredAfterAttempt(cfg, s, candidate, e.ts, c);
    case Quiet =>
  }

  lemma KilledMeansDrawdown(cfg: Config, events: seq<Event>, c: ClassId)
    ensures Replay(cfg, START, events).curves.Of(c).killed <==> DrawdownHit(Replay(cfg, START, events).trades, c)
  {
    KilledExactlyOnDrawdown(cfg, events);
  }

  /** What a trade made for each dollar it risked, in its class. */
  function RNet(c: ClassId): Trade -> real {
    (t: Trade) => if t.classId == c && t.entryRiskUsd > 0.0 then t.netUsd / t.entryRiskUsd else 0.0
  }

  function UsdNet(c: ClassId): Trade -> real {
    (t: Trade) => if t.classId == c then t.netUsd else 0.0
  }

  lemma {:induction false} PathIsSums(trades: seq<Trade>, f: Trade -> real, g: Trade -> real, k: nat)
    requires k <= |trades| && forall t :: f(t) == g(t)
    ensures Path(trades, f)[k] == Sum(trades[..k], g)
  {
    if k < |trades| {
      var n := |trades| - 1;
      PathIsSums(trades[..n], f, g, k);
      assert trades[..n][..k] == trades[..k];
    } else {
      assert trades[..k] == trades;
      if k > 0 {
        PathIsSums(trades[..k - 1], f, g, k - 1);
        assert trades[..k - 1][..k - 1] == trades[..k - 1];
      }
    }
  }

  /** After j trades the total stood `limit` or more above where it stands after k. */
  ghost predicate FellBetween(trades: seq<Trade>, f: Trade -> real, j: nat, k: nat, limit: real) {
    j <= k <= |trades| && Sum(trades[..j], f) - Sum(trades[..k], f) >= limit
  }

  ghost predicate FellInNumbers(trades: seq<Trade>, c: ClassId) {
    || (exists j, k :: FellBetween(trades, RNet(c), j, k, 20.0))
    || (exists j, k :: FellBetween(trades, UsdNet(c), j, k, 1_200.0))
  }

  lemma {:induction false} FellIsBetween(trades: seq<Trade>, f: Trade -> real, g: Trade -> real, limit: real)
    requires forall t :: f(t) == g(t)
    ensures Fell(Path(trades, f), limit) <==> exists j, k :: FellBetween(trades, g, j, k, limit)
  {
    hide Path, Sum;
    var path := Path(trades, f);
    if j, k :| 0 <= j <= k < |path| && path[j] - path[k] >= limit {
      PathIsSums(trades, f, g, j);
      PathIsSums(trades, f, g, k);
      assert FellBetween(trades, g, j, k, limit);
    }
    if j: nat, k: nat :| FellBetween(trades, g, j, k, limit) {
      PathIsSums(trades, f, g, j);
      PathIsSums(trades, f, g, k);
      assert path[j] - path[k] >= limit;
    }
  }

  /**
   * In numbers: at every instant a class is killed exactly when its closed trades, in closing order,
   * once stood 20 R or $1,200 under an earlier total, counted from nothing.
   */
  lemma {:induction false} KilledInNumbers(cfg: Config, events: seq<Event>, c: ClassId)
    ensures var s := Replay(cfg, START, events);
            s.curves.Of(c).killed <==> FellInNumbers(s.trades, c)
  {
    hide Replay, FellInNumbers, DrawdownHit;
    KilledMeansDrawdown(cfg, events, c);
    DrawdownInNumbers(Replay(cfg, START, events).trades, c);
  }

  lemma {:induction false} DrawdownInNumbers(trades: seq<Trade>, c: ClassId)
    ensures DrawdownHit(trades, c) <==> FellInNumbers(trades, c)
  {
    hide FellBetween, Fell, Path;
    FellIsBetween(trades, RIn(c), RNet(c), 20.0);
    FellIsBetween(trades, UsdIn(c), UsdNet(c), 1_200.0);
  }

  lemma {:induction false} KilledStaysOut(cfg: Config, past: seq<Event>, future: seq<Event>, c: ClassId)
    requires Replay(cfg, START, past).curves.Of(c).killed
    ensures Entered(Replay(cfg, START, past + future), c) == Entered(Replay(cfg, START, past), c)
    ensures Replay(cfg, START, past + future).curves.Of(c).killed
  {
    if future == [] {
      assert past + future == past;
    } else {
      var n := |future| - 1;
      var before := past + future[..n];
      assert past + future == before + [future[n]];
      assert (before + [future[n]])[..|before|] == before;
      KilledStaysOut(cfg, past, future[..n], c);
      KilledExactlyOnDrawdown(cfg, before);
      KilledClassDoesNotEnter(cfg, Replay(cfg, START, before), future[n], c);
    }
  }

  /** Once a class has fallen 20R or $1,200 below a peak it never enters again, whatever follows. */
  lemma KillIsForever(cfg: Config, past: seq<Event>, future: seq<Event>, c: ClassId)
    requires DrawdownHit(Replay(cfg, START, past).trades, c)
    ensures Entered(Replay(cfg, START, past + future), c) == Entered(Replay(cfg, START, past), c)
    ensures Replay(cfg, START, past + future).curves.Of(c).killed
  {
    KilledMeansDrawdown(cfg, past, c);
    KilledStaysOut(cfg, past, future, c);
  }
}
