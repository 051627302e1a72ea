/**
 * Why an attempt is turned away, told from trades, positions and the market: each gate has its own
 * cause, a step counts exactly the causes that hold, and an entry that has none is made.
 */
module BookCauses {
  import opened Basics
  import opened BookModel
  import opened BookRisk
  import opened BookSafety
  import opened BookTimeline
  import opened BookKill
  import opened BookEquity
  import T = BookTrades
  import L = BookLedger

  // ----- amounts

  ghost function Cost(cfg: Config): real {
    if cfg.costBps.Some? then cfg.costBps.value else 2.0 * (90.0 + cfg.sBtBps)
  }

  /** Stop distance and cost together, in bps of the entry price. */
  ghost function Load(cfg: Config, bar: Bar, stopDistance: real): real
    requires bar.open > 0.0
  {
    stopDistance / bar.open * 10_000.0 + Cost(cfg)
  }

  /** What risks $60 at this load, up to $1,500. */
  ghost function Notional(load: real): real
    requires load > 0.0
  {
    if 600_000.0 / load < 1_500.0 then 600_000.0 / load else 1_500.0
  }

  ghost function Positive(x: real): real {
    if x > 0.0 then x else 0.0
  }

  /** Its whole load while the stop is where it was; what is left to a stop that moved, and an exit leg on it. */
  ghost function RiskIn(cfg: Config): Position -> real {
    (p: Position) =>
      if !p.stopMoved then p.notionalUsd * (p.stopBps + p.costBps) / 10_000.0
      else p.units * Positive(p.fillEntry - p.stop) + p.units * Positive(p.stop) * (90.0 + cfg.sBtBps) / 10_000.0
  }

  /** What selling at the last close would bring over what was paid, less two fees on the entry. */
  ghost function Mark(cfg: Config, p: Position): real {
    p.units * (p.lastBar.close * (1.0 - cfg.sBtBps / 10_000.0) - p.fillEntry)
    - 2.0 * (p.units * p.fillEntry * 90.0 / 10_000.0)
  }

  ghost function MarksIn(cfg: Config): Position -> real {
    (p: Position) => Mark(cfg, p)
  }

  ghost function MarksOn(cfg: Config, productId: string): Position -> real {
    (p: Position) => if p.productId == productId then Mark(cfg, p) else 0.0
  }

  ghost function NetIn(t: Trade): real {
    t.netUsd
  }

  ghost function NetsOn(productId: string): Trade -> real {
    (t: Trade) => if t.productId == productId then t.netUsd else 0.0
  }

  /** Closed net dollars and open marks. */
  ghost function EquityNow(cfg: Config, s: State): real {
    Sum(s.trades, NetIn) + Sum(s.open, MarksIn(cfg))
  }

  ghost function ClusterAt(cfg: Config, productId: string, ts: int): string {
    if productId in cfg.pairs then cfg.pairs[productId].clusterOf(ts / 86_400) else ""
  }

  ghost function BetaAt(cfg: Config, productId: string, ts: int): real {
    if cfg.betaOf == None then 0.0
    else
      var beta := cfg.betaOf.value(productId, ts / 86_400);
      if beta.Some? then beta.value else 1.0
  }

  ghost function InClass(classId: ClassId): Position -> bool {
    (p: Position) => p.classId == classId
  }

  ghost function Clustered(cfg: Config, cluster: string): Position -> bool {
    (p: Position) => ClusterAt(cfg, p.productId, p.entryTs) == cluster
  }

  ghost function SizeIn(p: Position): real {
    p.notionalUsd
  }

  ghost function WeightedIn(cfg: Config): Position -> real {
    (p: Position) => p.notionalUsd * Positive(BetaAt(cfg, p.productId, p.entryTs))
  }

  // ----- causes

  ghost predicate Cause(cfg: Config, s: State, c: Candidate, ts: int, load: real, g: Gate)
    requires load > 0.0
  {
    var notional, now := Notional(load), EquityNow(cfg, s);
    match g
    case Reentry => exists t :: t in s.trades && t.productId == c.productId && ts < t.exitTs + 86_400
    case OnePerPair => exists p :: p in s.open && p.productId == c.productId
    case SlotA => c.classId == A && Count(s.open, InClass(A)) >= 3
    case SlotB => c.classId == B && Count(s.open, InClass(B)) >= 4
    case BookSlots => |s.open| >= 8
    case Cluster => Count(s.open, Clustered(cfg, ClusterAt(cfg, c.productId, ts))) >= cfg.clusterMaxOpen
    case OpenRisk => Sum(s.open, RiskIn(cfg)) + notional * load / 10_000.0 > 480.0
    case GrossNotional => Sum(s.open, SizeIn) + notional > 6_000.0
    case Beta =>
      cfg.betaOf.Some? && Sum(s.open, WeightedIn(cfg)) + notional * Positive(BetaAt(cfg, c.productId, ts)) > 6_000.0
    case DailyHalt => s.day.equity - now >= 240.0
    case WeeklyHalt => s.week.equity - now >= 480.0
    case BookHalt => s.peakEquity - now >= 1_600.0
    case DailyBackstop => s.day.equity - now >= 900.0
    case PairBackstop => Sum(s.trades, NetsOn(c.productId)) + Sum(s.open, MarksOn(cfg, c.productId)) <= -500.0
    case BookBackstop => s.peakEquity - now >= 8_000.0
    case ClassRKill => FellInNumbers(s.trades, c.classId)
  }

  // ----- what a run keeps

  /** A pair's last exit is that of one of its trades. */
  ghost predicate ExitsAreTraded(s: State) {
    forall id :: id in s.lastExit ==> exists t :: t in s.trades && t.productId == id && t.exitTs == s.lastExit[id]
  }

  lemma {:induction false} ExitsAfterDrop(cfg: Config, s: State, i: nat, bar: Bar, reason: Reason, rawExit: real,
      fillExit: real)
    requires i < |s.open| && ExitsAreTraded(s)
    ensures ExitsAreTraded(Drop(cfg, s, i, bar, reason, rawExit, fillExit))
  {
    hide Drop, CloseTrade;
    DropLeaves(cfg, s, i, bar, reason, rawExit, fillExit);
    var t := Drop(cfg, s, i, bar, reason, rawExit, fillExit);
    var trade := t.trades[|s.trades|];
    assert trade in t.trades;
    forall id | id in t.lastExit ensures exists x :: x in t.trades && x.productId == id && x.exitTs == t.lastExit[id] {
      if id == trade.productId {
        assert trade.exitTs == t.lastExit[id];
      } else {
        var x :| x in s.trades && x.productId == id && x.exitTs == s.lastExit[id];
        assert x in t.trades;
      }
    }
  }

  lemma {:induction false} ExitsAlways(cfg: Config, events: seq<Event>)
    ensures ExitsAreTraded(Replay(cfg, START, events))
  {
    hide Step, Drop, Attempt, AdmitsOrNot, OnlyTrailed;
    if events != [] {
      var n := |events| - 1;
      ExitsAlways(cfg, events[..n]);
      var s := Replay(cfg, START, events[..n]);
      var x := StepEffect(cfg, s, events[n]);
      match x
      case Dropped(i, bar, reason, rawExit, fillExit) => ExitsAfterDrop(cfg, s, i, bar, reason, rawExit, fillExit);
      case Tried(c) => AttemptAdmitsOrNot(cfg, s, c, events[n].ts);
      case _ =>
    }
  }

  /** What the causes rest on. */
  ghost predicate Known(cfg: Config, s: State, ts: int) {
    && T.AllAsMarketed(cfg, s) && Timely(s, ts) && ExitsAreTraded(s) && CurvesTrack(s) && L.MoneyBalances(s)
  }

  lemma {:induction false} KnownAlways(cfg: Config, events: seq<Event>, ts: int)
    requires InOrder(events) && forall i :: 0 <= i < |events| ==> events[i].ts <= ts
    ensures Known(cfg, Replay(cfg, START, events), ts)
  {
    hide Replay, T.AllAsMarketed, Timely, ExitsAreTraded, CurvesTrack, L.MoneyBalances, L.CountsBalance,
        L.EntriesBalance;
    T.TradesAreAsMarketed(cfg, events);
    TimelyAlways(cfg, events, ts);
    ExitsAlways(cfg, events);
    KilledExactlyOnDrawdown(cfg, events);
    L.BalancedAlways(cfg, events);
  }

  /** The caps in numbers, at every instant of every run. */
  ghost predicate Capped(cfg: Config, open: seq<Position>) {
    && (forall i, j :: 0 <= i < j < |open| ==> open[i].productId != open[j].productId)
    && Count(open, InClass(A)) <= 3 && Count(open, InClass(B)) <= 4 && |open| <= 7
    && (forall cluster :: Count(open, Clustered(cfg, cluster)) <= MaxInt(cfg.clusterMaxOpen, 0))
    && Sum(open, SizeIn) <= 6_000.0
    && (cfg.betaOf.Some? ==> Sum(open, WeightedIn(cfg)) <= 6_000.0)
  }

  lemma {:induction false} CappedAlways(cfg: Config, events: seq<Event>)
    ensures Capped(cfg, Replay(cfg, START, events).open)
  {
    hide Replay, Sum, Count, T.AllAsMarketed, AllSized;
    var s := Replay(cfg, START, events);
    CapsAlways(cfg, events);
    T.TradesAreAsMarketed(cfg, events);
    SameCount(s.open, OfClass(A), InClass(A));
    SameCount(s.open, OfClass(B), InClass(B));
    forall cluster ensures Count(s.open, Clustered(cfg, cluster)) <= MaxInt(cfg.clusterMaxOpen, 0) {
      ClustersCount(cfg, s, cluster);
    }
    SameSum(s.open, NotionalOf, SizeIn);
    if cfg.betaOf.Some? {
      WeightsAdd(cfg, s);
    }
  }

  // ----- the same amounts, both ways

  lemma {:induction false} SameSum<T>(xs: seq<T>, f: T -> real, g: T -> real)
    requires forall x :: x in xs ==> f(x) == g(x)
    ensures Sum(xs, f) == Sum(xs, g)
  {
    if xs != [] {
      var n := |xs| - 1;
      assert forall x :: x in xs[..n] ==> x in xs;
      SameSum(xs[..n], f, g);
      assert xs[n] in xs;
    }
  }

  lemma {:induction false} SameCount<T>(xs: seq<T>, p: T -> bool, q: T -> bool)
    requires forall x :: x in xs ==> p(x) == q(x)
    ensures Count(xs, p) == Count(xs, q)
  {
    if xs != [] {
      var n := |xs| - 1;
      assert forall x :: x in xs[..n] ==> x in xs;
      SameCount(xs[..n], p, q);
      assert xs[n] in xs;
    }
  }

  lemma {:induction false} MarkIsMark(cfg: Config, p: Position)
    ensures MarkUsd(p, cfg.sBtBps) == Mark(cfg, p)
  {
    hide MarkUsd;
    var exit := SellFill(p.lastBar.close, cfg.sBtBps);
    var s := START.(open := [p]);
    MarkIsExit(cfg, s, 0);
    NetDollars(p, Window, p.lastBar.close, exit, true);
  }

  lemma {:induction false} EquityIsEquity(cfg: Config, s: State)
    requires L.MoneyBalances(s)
    ensures Equity(s, cfg.sBtBps) == EquityNow(cfg, s)
  {
    hide Sum, MarkUsd, Mark;
    SameSum(s.trades, L.NetOf, NetIn);
    forall p | p in s.open ensures MarkOf(cfg.sBtBps)(p) == MarksIn(cfg)(p) {
      MarkIsMark(cfg, p);
    }
    SameSum(s.open, MarkOf(cfg.sBtBps), MarksIn(cfg));
  }

  lemma {:induction false} PairIsPair(cfg: Config, s: State, id: string)
    requires L.MoneyBalances(s)
    ensures PairPnl(s, id) == Sum(s.trades, NetsOn(id))
    ensures Sum(s.open, PairMarkOf(id, cfg.sBtBps)) == Sum(s.open, MarksOn(cfg, id))
  {
    hide Sum, MarkUsd, Mark, PairPnl;
    SameSum(s.trades, L.NetOn(id), NetsOn(id));
    forall p | p in s.open ensures PairMarkOf(id, cfg.sBtBps)(p) == MarksOn(cfg, id)(p) {
      MarkIsMark(cfg, p);
    }
    SameSum(s.open, PairMarkOf(id, cfg.sBtBps), MarksOn(cfg, id));
  }

  lemma {:induction false} RiskIsRisk(cfg: Config, p: Position)
    requires T.HeldAs(cfg, p)
    ensures LiveRisk(p, cfg.sBtBps) == RiskIn(cfg)(p)
  {
  }

  lemma {:induction false} RisksAdd(cfg: Config, s: State)
    requires T.AllAsMarketed(cfg, s)
    ensures Sum(s.open, RiskOf(cfg.sBtBps)) == Sum(s.open, RiskIn(cfg))
  {
    hide Sum, LiveRisk, T.HeldAs, T.TradedAs;
    forall p | p in s.open ensures RiskOf(cfg.sBtBps)(p) == RiskIn(cfg)(p) {
      RiskIsRisk(cfg, p);
    }
    SameSum(s.open, RiskOf(cfg.sBtBps), RiskIn(cfg));
  }

  lemma {:induction false} WeightIsWeight(cfg: Config, p: Position)
    requires T.HeldAs(cfg, p) && cfg.betaOf.Some?
    ensures BetaNotionalOf(p) == WeightedIn(cfg)(p)
  {
    hide T.EnteredAs, T.RuledAs;
  }

  lemma {:induction false} WeightsAdd(cfg: Config, s: State)
    requires T.AllAsMarketed(cfg, s) && cfg.betaOf.Some?
    ensures Sum(s.open, BetaNotionalOf) == Sum(s.open, WeightedIn(cfg))
  {
    hide Sum, T.HeldAs, T.TradedAs, BetaNotionalOf;
    forall p | p in s.open ensures BetaNotionalOf(p) == WeightedIn(cfg)(p) {
      WeightIsWeight(cfg, p);
    }
    SameSum(s.open, BetaNotionalOf, WeightedIn(cfg));
  }

  lemma ClusterIsCluster(cfg: Config, p: Position)
    requires T.HeldAs(cfg, p)
    ensures p.cluster == ClusterAt(cfg, p.productId, p.entryTs)
  {
    hide T.RuledAs;
  }

  lemma {:induction false} ClustersCount(cfg: Config, s: State, cluster: string)
    requires T.AllAsMarketed(cfg, s)
    ensures Count(s.open, InCluster(cluster)) == Count(s.open, Clustered(cfg, cluster))
  {
    hide Count, T.HeldAs, T.TradedAs, ClusterAt;
    forall p | p in s.open ensures InCluster(cluster)(p) == Clustered(cfg, cluster)(p) {
      ClusterIsCluster(cfg, p);
    }
    SameCount(s.open, InCluster(cluster), Clustered(cfg, cluster));
  }

  lemma {:induction false} SizeIsSize(load: real)
    requires load > 0.0
    ensures NotionalUsd(load) == Notional(load)
  {
    SameRatio(load);
  }

  lemma SameRatio(load: real)
    requires load > 0.0
    ensures 60.0 / (load / 10_000.0) == 600_000.0 / load
  {
    var scaled := load / 10_000.0;
    QuotientTimes(60.0, scaled);
    QuotientTimes(600_000.0, load);
    assert load * (60.0 / scaled) == 10_000.0 * (scaled * (60.0 / scaled));
    FactorKeepsOrder(load, 60.0 / scaled, 600_000.0 / load);
  }

  /** A quote at this load: the size, risk, cluster and beta that the gates compare. */
  ghost predicate Quotes(cfg: Config, c: Candidate, ts: int, load: real, q: Quote)
    requires load > 0.0
  {
    && q.notional == Notional(load) && q.addRisk == Notional(load) * load / 10_000.0
    && q.cluster == ClusterAt(cfg, c.productId, ts)
    && (cfg.betaOf.Some? ==> AppliedBeta(q) == BetaAt(cfg, c.productId, ts))
    && (cfg.betaOf.Some? && q.rawBeta == None <==> NoBeta(cfg, c, ts))
  }

  lemma {:induction false} QuoteQuotes(cfg: Config, c: Candidate, ts: int, bar: Bar)
    requires c.productId in cfg.pairs && ValidStop(bar, c.stopDistance) && bar.open > 0.0
    requires Load(cfg, bar, c.stopDistance) > 0.0
    ensures StopBps(bar, c.stopDistance) + CostBps(cfg) == Load(cfg, bar, c.stopDistance)
    ensures Quotes(cfg, c, ts, Load(cfg, bar, c.stopDistance), QuoteOf(cfg, c, ts, bar))
  {
    hide NotionalUsd, Notional, BuyFill;
    assert bar.open - (bar.open - c.stopDistance) == c.stopDistance;
    SizeIsSize(Load(cfg, bar, c.stopDistance));
  }

  // ----- each gate and its cause

  lemma {:induction false} ReentryIsCause(cfg: Config, s: State, c: Candidate, ts: int, load: real)
    requires load > 0.0 && Timely(s, ts) && ExitsAreTraded(s)
    ensures Cause(cfg, s, c, ts, load, Reentry)
       <==> c.productId in s.lastExit && ts * 1000 - s.lastExit[c.productId] * 1000 < NO_REENTRY_MS
  {
    hide EquityNow, Notional, OnePositionPerPair, TradesSpaced, OpenSpaced, OpenedBy;
    if c.productId in s.lastExit {
      var t :| t in s.trades && t.productId == c.productId && t.exitTs == s.lastExit[c.productId];
    }
  }

  lemma {:induction false} CountGates(cfg: Config, s: State, c: Candidate, ts: int, load: real, q: Quote, g: Gate)
    requires load > 0.0 && Known(cfg, s, ts) && Quotes(cfg, c, ts, load, q)
    requires g in {Reentry, OnePerPair, SlotA, SlotB, BookSlots, Cluster}
    ensures GateFails(cfg, s, c, ts, q, g) <==> Cause(cfg, s, c, ts, load, g)
  {
    hide Sum, Count, EquityNow, Notional, T.AllAsMarketed, Timely, ExitsAreTraded, CurvesTrack, L.MoneyBalances,
        ClassKillTripped, PairPnl, Equity, BetaWeighted, FellInNumbers;
    ReentryIsCause(cfg, s, c, ts, load);
    ClustersCount(cfg, s, ClusterAt(cfg, c.productId, ts));
    SameCount(s.open, OfClass(A), InClass(A));
    SameCount(s.open, OfClass(B), InClass(B));
  }

  lemma {:induction false} SumGates(cfg: Config, s: State, c: Candidate, ts: int, load: real, q: Quote, g: Gate)
    requires load > 0.0 && Known(cfg, s, ts) && Quotes(cfg, c, ts, load, q)
    requires g in {OpenRisk, GrossNotional, Beta}
    ensures GateFails(cfg, s, c, ts, q, g) <==> Cause(cfg, s, c, ts, load, g)
  {
    hide Sum, Count, EquityNow, Notional, T.AllAsMarketed, Timely, ExitsAreTraded, CurvesTrack, L.MoneyBalances,
        ClassKillTripped, PairPnl, Equity, DrawdownHit, FellInNumbers, HoldsPair, ClusterAt;
    RisksAdd(cfg, s);
    SameSum(s.open, NotionalOf, SizeIn);
    if cfg.betaOf.Some? {
      WeightsAdd(cfg, s);
      assert BetaWeight(AppliedBeta(q)) == Positive(BetaAt(cfg, c.productId, ts));
    }
  }

  lemma {:induction false} LossGates(cfg: Config, s: State, c: Candidate, ts: int, load: real, q: Quote, g: Gate)
    requires load > 0.0 && Known(cfg, s, ts)
    requires g in {DailyHalt, WeeklyHalt, BookHalt, DailyBackstop, PairBackstop, BookBackstop, ClassRKill}
    ensures GateFails(cfg, s, c, ts, q, g) <==> Cause(cfg, s, c, ts, load, g)
  {
    hide Sum, Count, EquityNow, Notional, T.AllAsMarketed, Timely, ExitsAreTraded, L.MoneyBalances,
        ClassKillTripped, PairPnl, Equity, BetaWeighted, DrawdownHit, FellInNumbers, HoldsPair, ClusterAt, Path, IsPeak;
    EquityIsEquity(cfg, s);
    PairIsPair(cfg, s, c.productId);
    TrippedIsKilled(s.curves.Of(c.classId), s.trades, c.classId);
    DrawdownInNumbers(s.trades, c.classId);
  }

  lemma {:induction false} GateIsCause(cfg: Config, s: State, c: Candidate, ts: int, load: real, q: Quote, g: Gate)
    requires load > 0.0 && Known(cfg, s, ts) && Quotes(cfg, c, ts, load, q)
    ensures GateFails(cfg, s, c, ts, q, g) <==> Cause(cfg, s, c, ts, load, g)
  {
    hide Known, Quotes, Cause, Fails, ReadingsOf, Notional;
    if g in {Reentry, OnePerPair, SlotA, SlotB, BookSlots, Cluster} {
      CountGates(cfg, s, c, ts, load, q, g);
    } else if g in {OpenRisk, GrossNotional, Beta} {
      SumGates(cfg, s, c, ts, load, q, g);
    } else {
      LossGates(cfg, s, c, ts, load, q, g);
    }
  }

  // ----- the attempt

  /** The candidate's bar is there, its stop lies between nothing and the open, and it can be sized. */
  ghost predicate Sizable(cfg: Config, c: Candidate, ts: int, bar: Bar) {
    && c.productId in cfg.pairs && ts in cfg.pairs[c.productId].bars && cfg.pairs[c.productId].bars[ts] == bar
    && 0.0 < bar.open - c.stopDistance < bar.open && Load(cfg, bar, c.stopDistance) > 0.0
  }

  ghost function One(holds: bool): nat {
    if holds then 1 else 0
  }

  ghost predicate NoBeta(cfg: Config, c: Candidate, ts: int) {
    cfg.betaOf.Some? && cfg.betaOf.value(c.productId, ts / 86_400) == None
  }

  /** What the attempt adds to the counts and the log: one hit for each cause, in all and for the class. */
  ghost predicate Counted(cfg: Config, s: State, t: State, c: Candidate, ts: int, load: real)
    requires load > 0.0
  {
    && t.tally.attempts == s.tally.attempts + 1 && t.tally.noBar == s.tally.noBar
    && t.tally.invalidStop == s.tally.invalidStop
    && t.tally.betaUnresolved == s.tally.betaUnresolved + One(NoBeta(cfg, c, ts))
    && |t.tally.log| == |s.tally.log| + 1 && t.tally.log[..|s.tally.log|] == s.tally.log
    && (var row := t.tally.log[|s.tally.log|];
        && row.productId == c.productId && row.entryTs == ts && row.notionalUsd == Notional(load)
        && row.riskUsd == Notional(load) * load / 10_000.0
        && (row.taken <==> forall g :: !Cause(cfg, s, c, ts, load, g)))
    && forall g ::
         var hit := One(Cause(cfg, s, c, ts, load, g));
         && t.tally.hits[g] == s.tally.hits[g] + hit
         && t.tally.hitsByClass.a[g] == s.tally.hitsByClass.a[g] + (if c.classId == A then hit else 0)
         && t.tally.hitsByClass.b[g] == s.tally.hitsByClass.b[g] + (if c.classId == B then hit else 0)
  }

  /** The candidate's position, at the open and the stop of its bar, is the newest. */
  ghost predicate Taken(s: State, t: State, c: Candidate, ts: int, bar: Bar) {
    && |t.open| == |s.open| + 1 && t.open[..|s.open|] == s.open && t.tally.taken == s.tally.taken + 1
    && var p := t.open[|s.open|];
       && p.classId == c.classId && p.productId == c.productId && p.signalDate == c.signalDate && p.entryTs == ts
       && p.rawEntry == bar.open && p.stop == bar.open - c.stopDistance && p.lastBar == bar
       && p.highestClose == None && !p.stopMoved
  }

  lemma {:induction false} DecidedByGates(cfg: Config, s: State, c: Candidate, ts: int, q: Quote)
    requires q.bar.open > 0.0 && q.fillEntry > 0.0
    ensures var t, failed := Decide(cfg, s, c, ts, q), FailedGates(cfg, s, c, ts, q);
            && t.tally.attempts == s.tally.attempts + 1 && t.tally.noBar == s.tally.noBar
            && t.tally.invalidStop == s.tally.invalidStop && t.trades == s.trades && t.threw == s.threw
            && t.tally.betaUnresolved == s.tally.betaUnresolved + One(cfg.betaOf.Some? && q.rawBeta == None)
            && t.tally.log == s.tally.log + [LogRow(c.productId, ts, failed == {}, q.notional, q.addRisk)]
            && (forall g ::
                  var hit := One(g in failed);
                  && t.tally.hits[g] == s.tally.hits[g] + hit
                  && t.tally.hitsByClass.a[g] == s.tally.hitsByClass.a[g] + (if c.classId == A then hit else 0)
                  && t.tally.hitsByClass.b[g] == s.tally.hitsByClass.b[g] + (if c.classId == B then hit else 0))
            && (failed != {} ==> t.open == s.open && t.tally.taken == s.tally.taken)
            && (failed == {} ==> t.open == s.open + [NewPosition(cfg, c, ts, q)] && t.tally.taken == s.tally.taken + 1)
  {
    hide FailedGates, NewPosition;
  }

  /**
   * At every instant of every run, an attempt that can be sized counts one hit for each cause that
   * holds and no other; it leaves the positions alone when one does, and is taken when none does.
   */
  lemma {:induction false} EntryIsDecidedByCauses(cfg: Config, events: seq<Event>, c: Candidate, ts: int, bar: Bar)
    requires InOrder(events) && forall i :: 0 <= i < |events| ==> events[i].ts <= ts
    requires !Replay(cfg, START, events).threw && Sizable(cfg, c, ts, bar)
    ensures var s, t := Replay(cfg, START, events), Replay(cfg, START, events + [Event(ts, TryEntry(c))]);
            var load := Load(cfg, bar, c.stopDistance);
            && Counted(cfg, s, t, c, ts, load) && t.trades == s.trades && !t.threw
            && if exists g :: Cause(cfg, s, c, ts, load, g) then t.open == s.open && t.tally.taken == s.tally.taken
               else Taken(s, t, c, ts, bar)
  {
    hide Replay, Known, Cause, Decide, FailedGates, Quotes, NewPosition, GateFails, Load, QuoteOf, StopBps, CostBps,
        Notional,
        NoBeta;
    var s, e := Replay(cfg, START, events), Event(ts, TryEntry(c));
    var load, q := Load(cfg, bar, c.stopDistance), QuoteIn(cfg, c, ts, bar);
    LastStep(cfg, events, e);
    KnownAlways(cfg, events, ts);
    AttemptDecides(cfg, s, c, ts, bar);
    DecidedByGates(cfg, s, c, ts, q);
    QuoteTells(cfg, c, ts, load, q);
    forall g ensures g in FailedGates(cfg, s, c, ts, q) <==> Cause(cfg, s, c, ts, load, g) {
      GateIsCause(cfg, s, c, ts, load, q, g);
      Passes(cfg, s, c, ts, q, g);
    }
    EntersAs(cfg, c, ts, bar);
  }

  ghost function QuoteIn(cfg: Config, c: Candidate, ts: int, bar: Bar): (q: Quote)
    requires Sizable(cfg, c, ts, bar)
    ensures q.bar == bar && bar.open > 0.0 && q.fillEntry > 0.0
    ensures Quotes(cfg, c, ts, Load(cfg, bar, c.stopDistance), q)
  {
    FillIsPositive(cfg, bar);
    QuoteQuotes(cfg, c, ts, bar);
    QuoteOf(cfg, c, ts, bar)
  }

  lemma QuoteTells(cfg: Config, c: Candidate, ts: int, load: real, q: Quote)
    requires load > 0.0 && Quotes(cfg, c, ts, load, q)
    ensures q.notional == Notional(load) && q.addRisk == Notional(load) * load / 10_000.0
    ensures cfg.betaOf.Some? && q.rawBeta == None <==> NoBeta(cfg, c, ts)
  {
    hide Notional, ClusterAt, BetaAt;
  }

  lemma LastStep(cfg: Config, events: seq<Event>, e: Event)
    ensures Replay(cfg, START, events + [e]) == Step(cfg, Replay(cfg, START, events), e)
  {
    hide Step;
    assert (events + [e])[..|events|] == events;
  }

  lemma AttemptDecides(cfg: Config, s: State, c: Candidate, ts: int, bar: Bar)
    requires Sizable(cfg, c, ts, bar)
    ensures Attempt(cfg, s, c, ts) == Decide(cfg, s, c, ts, QuoteIn(cfg, c, ts, bar))
  {
    hide Decide, NotionalUsd, BuyFill;
    QuoteQuotes(cfg, c, ts, bar);
  }

  lemma EntersAs(cfg: Config, c: Candidate, ts: int, bar: Bar)
    requires Sizable(cfg, c, ts, bar)
    ensures var p := NewPosition(cfg, c, ts, QuoteIn(cfg, c, ts, bar));
            && p.classId == c.classId && p.productId == c.productId && p.signalDate == c.signalDate && p.entryTs == ts
            && p.rawEntry == bar.open && p.stop == bar.open - c.stopDistance && p.lastBar == bar
            && p.highestClose == None && !p.stopMoved
  {
    hide NotionalUsd, BuyFill;
    QuoteQuotes(cfg, c, ts, bar);
  }

  /**
   * Without its bar, or with a stop outside, an attempt is counted as that and changes nothing
   * else; one that cannot be sized throws.
   */
  lemma {:induction false} OtherAttempts(cfg: Config, events: seq<Event>, c: Candidate, ts: int)
    requires !Replay(cfg, START, events).threw
    ensures var s, t := Replay(cfg, START, events), Replay(cfg, START, events + [Event(ts, TryEntry(c))]);
            var tally := s.tally.(attempts := s.tally.attempts + 1);
            if c.productId !in cfg.pairs || ts !in cfg.pairs[c.productId].bars
            then t == s.(tally := tally.(noBar := s.tally.noBar + 1))
            else
              var bar := cfg.pairs[c.productId].bars[ts];
              if !(0.0 < bar.open - c.stopDistance < bar.open)
              then t == s.(tally := tally.(invalidStop := s.tally.invalidStop + 1))
              else t.threw <==> Load(cfg, bar, c.stopDistance) <= 0.0
  {
    hide Replay, Decide;
    var s := Replay(cfg, START, events);
    LastStep(cfg, events, Event(ts, TryEntry(c)));
    if c.productId in cfg.pairs && ts in cfg.pairs[c.productId].bars {
      var bar := cfg.pairs[c.productId].bars[ts];
      if 0.0 < bar.open - c.stopDistance < bar.open {
        LoadIsLoad(cfg, bar, c.stopDistance);
        if Load(cfg, bar, c.stopDistance) > 0.0 {
          DecideDoesNotThrow(cfg, s, c, ts, bar);
        }
      }
    }
  }

  lemma LoadIsLoad(cfg: Config, bar: Bar, stopDistance: real)
    requires ValidStop(bar, stopDistance)
    ensures StopBps(bar, stopDistance) + CostBps(cfg) == Load(cfg, bar, stopDistance)
  {
    assert bar.open - (bar.open - stopDistance) == stopDistance;
  }

  lemma DecideDoesNotThrow(cfg: Config, s: State, c: Candidate, ts: int, bar: Bar)
    requires Sizable(cfg, c, ts, bar) && !s.threw
    ensures !Attempt(cfg, s, c, ts).threw
  {
    hide Decide, Quotes;
    AttemptDecides(cfg, s, c, ts, bar);
    DecidedByGates(cfg, s, c, ts, QuoteIn(cfg, c, ts, bar));
  }
}
