/**
 * Safety of the book over every sequence of steps.
 * An event is one indivisible change a run makes; every instant of a run is a prefix of its events.
 */
module BookSafety {
  import opened Basics
  import opened BookModel
  import opened BookRisk

  datatype Action =
    | OpenTheBar | CheckGap(i: nat) | TryEntry(c: Candidate) | ManageOne(i: nat) | CloseTheBar | Liquidate(i: nat)

  datatype Event = Event(ts: int, action: Action)

  function Step(cfg: Config, s: State, e: Event): State {
    if s.threw then s
    else
      match e.action
      case OpenTheBar => OpenBar(cfg, s, e.ts)
      case CheckGap(i) => if i < |s.open| then GapExit(cfg, s, i, e.ts) else s
      case TryEntry(c) => Attempt(cfg, s, c, e.ts)
      case ManageOne(i) => if i < |s.open| then Manage(cfg, s, i, e.ts) else s
      case CloseTheBar => BumpPeak(cfg, s)
      case Liquidate(i) => if i < |s.open| then WindowExit(cfg, s, i) else s
  }

  function Replay(cfg: Config, s: State, events: seq<Event>): State {
    if events == [] then s
    else
      var n := |events| - 1;
      Step(cfg, Replay(cfg, s, events[..n]), events[n])
  }

  /** The candidates a run tries, in the order it tries them. */
  function TriedIn(events: seq<Event>): seq<Candidate> {
    if events == [] then []
    else
      var n := |events| - 1;
      TriedIn(events[..n]) + if events[n].action.TryEntry? then [events[n].action.c] else []
  }

  /** Every bar's candidates, bar after bar. */
  function DueFrom(cfg: Config, ts: int): seq<Candidate>
    decreases cfg.endTs - ts
  {
    if ts >= cfg.endTs then [] else Due(cfg, ts) + DueFrom(cfg, ts + BAR)
  }

  ghost predicate InOrder(events: seq<Event>) {
    forall i, j :: 0 <= i < j < |events| ==> events[i].ts <= events[j].ts
  }

  // ----- caps

  ghost predicate OnePositionPerPair(open: seq<Position>) {
    forall i, j :: 0 <= i < j < |open| ==> open[i].productId != open[j].productId
  }

  ghost predicate SlotsHold(cfg: Config, open: seq<Position>) {
    && OnePositionPerPair(open)
    && Count(open, OfClass(A)) <= SLOT_CAP_A
    && Count(open, OfClass(B)) <= SLOT_CAP_B
    && forall k :: Count(open, InCluster(k)) <= MaxInt(cfg.clusterMaxOpen, 0)
  }

  ghost predicate NotionalHolds(cfg: Config, open: seq<Position>) {
    && Sum(open, NotionalOf) <= GROSS_NOTIONAL_CAP_USD
    && (cfg.betaOf.Some? ==> Sum(open, BetaNotionalOf) <= BETA_WEIGHTED_NOTIONAL_CAP_USD)
  }

  ghost predicate AllSized(cfg: Config, open: seq<Position>) {
    forall p :: p in open ==> Sized(cfg, p)
  }

  ghost predicate Caps(cfg: Config, open: seq<Position>) {
    SlotsHold(cfg, open) && NotionalHolds(cfg, open) && AllSized(cfg, open)
  }

  lemma SevenAtMost(cfg: Config, open: seq<Position>)
    requires SlotsHold(cfg, open)
    ensures |open| <= SLOT_CAP_A + SLOT_CAP_B < MAX_POSITIONS
  {
    CountSplit(open, OfClass(A), OfClass(B));
  }

  ghost predicate SameSlot(p: Position, q: Position) {
    && p.classId == q.classId && p.productId == q.productId && p.entryTs == q.entryTs && p.cluster == q.cluster
    && p.notionalUsd == q.notionalUsd && p.beta == q.beta && p.entryRiskUsd == q.entryRiskUsd
  }

  lemma SlotsSpliced(cfg: Config, open: seq<Position>, i: nat, q: Position)
    requires i < |open| && SlotsHold(cfg, open) && SameSlot(open[i], q)
    ensures SlotsHold(cfg, Without(open, i))
    ensures SlotsHold(cfg, open[i := q])
  {
    PairsSpliced(open, i, q);
    ClassesSpliced(open, i, q);
    forall k
      ensures Count(Without(open, i), InCluster(k)) <= MaxInt(cfg.clusterMaxOpen, 0)
      ensures Count(open[i := q], InCluster(k)) <= MaxInt(cfg.clusterMaxOpen, 0)
    {
      ClusterSpliced(open, i, q, k);
    }
  }

  lemma PairsSpliced(open: seq<Position>, i: nat, q: Position)
    requires i < |open| && OnePositionPerPair(open) && open[i].productId == q.productId
    ensures OnePositionPerPair(Without(open, i)) && OnePositionPerPair(open[i := q])
  {
  }

  lemma ClassesSpliced(open: seq<Position>, i: nat, q: Position)
    requires i < |open| && open[i].classId == q.classId
    ensures forall c :: Count(Without(open, i), OfClass(c)) <= Count(open, OfClass(c))
    ensures forall c :: Count(open[i := q], OfClass(c)) == Count(open, OfClass(c))
  {
    hide Count, Without;
    forall c
      ensures Count(Without(open, i), OfClass(c)) <= Count(open, OfClass(c))
      ensures Count(open[i := q], OfClass(c)) == Count(open, OfClass(c))
    {
      CountSplice(open, i, q, OfClass(c));
    }
  }

  lemma ClusterSpliced(open: seq<Position>, i: nat, q: Position, k: string)
    requires i < |open| && open[i].cluster == q.cluster
    ensures Count(Without(open, i), InCluster(k)) <= Count(open, InCluster(k))
    ensures Count(open[i := q], InCluster(k)) == Count(open, InCluster(k))
  {
    hide Count, Without;
    CountSplice(open, i, q, InCluster(k));
  }

  lemma {:induction false} NotionalSpliced(cfg: Config, open: seq<Position>, i: nat, q: Position)
    requires i < |open| && NotionalHolds(cfg, open) && SameSlot(open[i], q)
    requires open[i].notionalUsd >= 0.0
    ensures NotionalHolds(cfg, Without(open, i))
    ensures NotionalHolds(cfg, open[i := q])
  {
    hide Sum, BetaNotionalOf, Without;
    SameBetaNotional(open[i], q);
    SumSplice(open, i, q, NotionalOf);
    SumSplice(open, i, q, BetaNotionalOf);
  }

  lemma SameBetaNotional(p: Position, q: Position)
    requires SameSlot(p, q) && p.notionalUsd >= 0.0
    ensures BetaNotionalOf(p) == BetaNotionalOf(q) >= 0.0
  {
    ProductMonotone(0.0, p.notionalUsd, BetaWeight(if p.beta.Some? then p.beta.value else 0.0));
  }

  lemma CapsSpliced(cfg: Config, open: seq<Position>, i: nat, q: Position)
    requires i < |open| && Caps(cfg, open) && SameSlot(open[i], q) && Sized(cfg, q)
    ensures Caps(cfg, Without(open, i))
    ensures Caps(cfg, open[i := q])
  {
    SlotsSpliced(cfg, open, i, q);
    SizedNotional(cfg, q);
    NotionalSpliced(cfg, open, i, q);
    assert forall p :: p in Without(open, i) ==> p in open;
    assert forall p :: p in open[i := q] ==> p in open || p == q;
  }

  lemma SizedNotional(cfg: Config, p: Position)
    requires Sized(cfg, p)
    ensures 0.0 < p.notionalUsd <= NOTIONAL_CAP_USD && 0.0 < p.entryRiskUsd <= RISK_USD
  {
    SizeBounds(p.stopBps + p.costBps);
  }

  /** Passing means that no gate fails. */
  lemma Passes(cfg: Config, s: State, c: Candidate, ts: int, q: Quote, g: Gate)
    ensures GateFails(cfg, s, c, ts, q, g) <==> g in FailedGates(cfg, s, c, ts, q)
  {
  }

  lemma SlotsAdmit(cfg: Config, s: State, c: Candidate, ts: int, q: Quote)
    requires q.bar.open > 0.0 && q.fillEntry > 0.0
    requires SlotsHold(cfg, s.open) && FailedGates(cfg, s, c, ts, q) == {}
    ensures SlotsHold(cfg, s.open + [NewPosition(cfg, c, ts, q)])
  {
    var p := NewPosition(cfg, c, ts, q);
    Passes(cfg, s, c, ts, q, OnePerPair);
    Passes(cfg, s, c, ts, q, SlotA);
    Passes(cfg, s, c, ts, q, SlotB);
    Passes(cfg, s, c, ts, q, Cluster);
    CountConcat(s.open, [p], OfClass(A)); CountOne(p, OfClass(A));
    CountConcat(s.open, [p], OfClass(B)); CountOne(p, OfClass(B));
    forall k ensures Count(s.open + [p], InCluster(k)) <= MaxInt(cfg.clusterMaxOpen, 0) {
      CountConcat(s.open, [p], InCluster(k)); CountOne(p, InCluster(k));
    }
    assert forall i :: 0 <= i < |s.open| ==> s.open[i] in s.open;
  }

  lemma NotionalAdmits(cfg: Config, s: State, c: Candidate, ts: int, q: Quote)
    requires q.bar.open > 0.0 && q.fillEntry > 0.0
    requires NotionalHolds(cfg, s.open) && FailedGates(cfg, s, c, ts, q) == {}
    ensures NotionalHolds(cfg, s.open + [NewPosition(cfg, c, ts, q)])
  {
    var p := NewPosition(cfg, c, ts, q);
    Passes(cfg, s, c, ts, q, GrossNotional);
    Passes(cfg, s, c, ts, q, Beta);
    SumConcat(s.open, [p], NotionalOf); SumOne(p, NotionalOf);
    SumConcat(s.open, [p], BetaNotionalOf); SumOne(p, BetaNotionalOf);
  }

  lemma CapsAfterAttempt(cfg: Config, s: State, c: Candidate, ts: int)
    requires Caps(cfg, s.open)
    ensures Caps(cfg, Attempt(cfg, s, c, ts).open)
  {
    hide Attempt, SlotsHold, NotionalHolds, FailedGates, NewPosition;
    AttemptAdmitsOrNot(cfg, s, c, ts);
    var t := Attempt(cfg, s, c, ts);
    if t.open != s.open {
      var q :| Admits(cfg, s, t, ts, c, q);
      NewPositionIsSized(cfg, c, ts, q.bar);
      SlotsAdmit(cfg, s, c, ts, q);
      NotionalAdmits(cfg, s, c, ts, q);
      assert forall x :: x in t.open ==> x in s.open || x == NewPosition(cfg, c, ts, q);
    }
  }

  // ----- one step

  /** The trail moves the stop up, and remembers the highest close and that the stop moved. */
  lemma TrailKeeps(cfg: Config, p: Position, bar: Bar)
    ensures var q := Trailed(cfg, p.(lastBar := bar));
            q.lastBar == bar && OnlyTrailed(p, q) && (Sized(cfg, p) ==> Sized(cfg, q))
  {
  }

  /**
   * Nothing of the position differs but its last bar, and its trail: the stop is no lower, and
   * moved if it is higher.
   */
  ghost predicate OnlyTrailed(p: Position, q: Position) {
    && q == p.(lastBar := q.lastBar, stop := q.stop, stopMoved := q.stopMoved, highestClose := q.highestClose)
    && p.stop <= q.stop
    && q.stopMoved == (p.stopMoved || p.stop < q.stop)
  }

  /** Position i alone has moved on, to a bar of this step or not at all. */
  ghost predicate Moves(s: State, t: State, i: nat, ts: int)
    requires i < |s.open|
  {
    && |t.open| == |s.open|
    && t == s.(open := s.open[i := t.open[i]])
    && OnlyTrailed(s.open[i], t.open[i])
    && (t.open[i].lastBar == s.open[i].lastBar || t.open[i].lastBar.ts == ts)
  }

  /** On the bar of this step, with a usable stop, no gate fails, and the candidate's position is appended. */
  ghost predicate Admits(cfg: Config, s: State, t: State, ts: int, c: Candidate, q: Quote) {
    && BarAt(cfg, c.productId, ts) == Some(q.bar)
    && ValidStop(q.bar, c.stopDistance) && StopBps(q.bar, c.stopDistance) + CostBps(cfg) > 0.0
    && q == QuoteOf(cfg, c, ts, q.bar) && q.fillEntry > 0.0
    && FailedGates(cfg, s, c, ts, q) == {} && t.open == s.open + [NewPosition(cfg, c, ts, q)]
  }

  /** The candidate is admitted through all gates, or the book holds what it held. */
  ghost predicate AdmitsOrNot(cfg: Config, s: State, t: State, ts: int, c: Candidate) {
    t.open == s.open || exists q: Quote :: Admits(cfg, s, t, ts, c, q)
  }

  lemma AttemptAdmitsOrNot(cfg: Config, s: State, c: Candidate, ts: int)
    ensures AdmitsOrNot(cfg, s, Attempt(cfg, s, c, ts), ts, c)
    ensures Attempt(cfg, s, c, ts).trades == s.trades && Attempt(cfg, s, c, ts).lastExit == s.lastExit
  {
    hide FailedGates, NewPosition, NotionalUsd, BuyFill, EntryOpenRiskUsd;
    var bar := BarAt(cfg, c.productId, ts);
    if bar.Some? && ValidStop(bar.value, c.stopDistance) && StopBps(bar.value, c.stopDistance) + CostBps(cfg) > 0.0 {
      FillIsPositive(cfg, bar.value);
      var q := QuoteOf(cfg, c, ts, bar.value);
      if FailedGates(cfg, s, c, ts, q) == {} {
        assert Admits(cfg, s, Attempt(cfg, s, c, ts), ts, c, q);
      }
    }
  }

  /** A drop takes one position out, and appends its trade, which is the pair's last exit. */
  lemma DropLeaves(cfg: Config, s: State, i: nat, bar: Bar, reason: Reason, rawExit: real, fillExit: real)
    requires i < |s.open|
    ensures var t := Drop(cfg, s, i, bar, reason, rawExit, fillExit);
            var trade := CloseTrade(s.open[i].(lastBar := bar), reason, rawExit, fillExit, reason == Window);
            && t.open == Without(s.open, i) && t.trades == s.trades + [trade]
            && t.lastExit == s.lastExit[s.open[i].productId := bar.ts]
            && trade.productId == s.open[i].productId && trade.entryTs == s.open[i].entryTs && trade.exitTs == bar.ts
  {
    hide Equity, Advance, PairPnl, GrossBps, NetBps;
  }

  /** What one step does to the book. */
  datatype Effect =
    | Quiet
    | Dropped(i: nat, bar: Bar, reason: Reason, rawExit: real, fillExit: real)
    | Moved(i: nat)
    | Tried(c: Candidate)

  ghost predicate HasEffect(cfg: Config, s: State, t: State, ts: int, x: Effect) {
    match x
    case Quiet => t == s.(day := t.day, week := t.week, peakEquity := t.peakEquity)
    case Dropped(i, bar, reason, rawExit, fillExit) =>
      && i < |s.open|
      && (bar.ts == ts || bar == s.open[i].lastBar)
      && t == Drop(cfg, s, i, bar, reason, rawExit, fillExit)
    case Moved(i) => i < |s.open| && Moves(s, t, i, ts) && (Sized(cfg, s.open[i]) ==> Sized(cfg, t.open[i]))
    case Tried(c) => t == Attempt(cfg, s, c, ts) && AdmitsOrNot(cfg, s, t, ts, c)
  }

  lemma ManageEffect(cfg: Config, s: State, i: nat, ts: int) returns (x: Effect)
    requires i < |s.open|
    ensures HasEffect(cfg, s, Manage(cfg, s, i, ts), ts, x)
    ensures x.Dropped? || x.Moved?
  {
    var p := s.open[i];
    var found := if p.lastBar.ts == ts then Some(p.lastBar) else BarAt(cfg, p.productId, ts);
    x := Moved(i);
    if found.Some? {
      var bar := found.value;
      if IntrabarFill(bar, p.stop, None).StopAt? && bar.open > p.stop {
        x := Dropped(i, bar, Stop, p.stop, StopFill(p.stop, p.rawEntry, cfg.sBtBps, Atr1h(cfg, p.productId, ts)));
      } else if p.ruleExit.Some? && p.ruleExit.value.at == AtOpen && bar.ts == p.ruleExit.value.ts {
        x := Dropped(i, bar, Rule, bar.open, SellFill(bar.open, cfg.sBtBps));
      } else if p.ruleExit.Some? && p.ruleExit.value.at == AtClose && bar.ts < p.ruleExit.value.ts <= bar.ts + BAR {
        x := Dropped(i, bar, Rule, bar.close, SellFill(bar.close, cfg.sBtBps));
      } else {
        TrailKeeps(cfg, p, bar);
      }
    } else {
      assert s.open == s.open[i := p];
      assert s == s.(open := s.open[i := p]);
    }
  }

  lemma StepEffect(cfg: Config, s: State, e: Event) returns (x: Effect)
    ensures HasEffect(cfg, s, Step(cfg, s, e), e.ts, x)
    ensures x.Quiet? ==> Step(cfg, s, e) == s || e.action.OpenTheBar? || e.action.CloseTheBar?
  {
    x := Quiet;
    if !s.threw {
      match e.action
      case CheckGap(i) =>
        var bar := if i < |s.open| then BarAt(cfg, s.open[i].productId, e.ts) else None;
        if bar.Some? && bar.value.open <= s.open[i].stop {
          x := Dropped(i, bar.value, Gap, bar.value.open, bar.value.open);
        }
      case Liquidate(i) =>
        if i < |s.open| {
          var bar := s.open[i].lastBar;
          x := Dropped(i, bar, Window, bar.close, SellFill(bar.close, cfg.sBtBps));
        }
      case ManageOne(i) =>
        if i < |s.open| {
          x := ManageEffect(cfg, s, i, e.ts);
        }
      case TryEntry(c) =>
        AttemptAdmitsOrNot(cfg, s, c, e.ts);
        x := Tried(c);
      case _ =>
    }
  }

  lemma CapsStep(cfg: Config, s: State, e: Event)
    requires Caps(cfg, s.open)
    ensures Caps(cfg, Step(cfg, s, e).open)
  {
    var x := StepEffect(cfg, s, e);
    match x
    case Dropped(i, _, _, _, _) => CapsSpliced(cfg, s.open, i, s.open[i]);
    case Moved(i) => CapsSpliced(cfg, s.open, i, Step(cfg, s, e).open[i]);
    case Tried(c) => CapsAfterAttempt(cfg, s, c, e.ts);
    case Quiet =>
  }

  /** At every instant of every run. */
  lemma {:induction false} CapsAlways(cfg: Config, events: seq<Event>)
    ensures Caps(cfg, Replay(cfg, START, events).open)
    ensures |Replay(cfg, START, events).open| <= 7
  {
    if events == [] {
      assert forall k :: Count(START.open, InCluster(k)) == 0;
    } else {
      var n := |events| - 1;
      CapsAlways(cfg, events[..n]);
      CapsStep(cfg, Replay(cfg, START, events[..n]), events[n]);
    }
    SevenAtMost(cfg, Replay(cfg, START, events).open);
  }
}
