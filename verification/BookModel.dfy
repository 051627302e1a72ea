/**
 * The capped portfolio book as a state machine over 15-minute bars.
 * Dates are day numbers since the epoch. Prices and dollars are exact.
 */
module BookModel {
  import opened Basics
  import opened Sorting

  const DAY := 86_400
  const BAR := 900
  const TRAIL_ATR := 3.0
  const TAKER_FEE_BPS := 90.0
  const SLOT_CAP_A := 3
  const SLOT_CAP_B := 4
  const MAX_POSITIONS := 8
  const RISK_USD := 60.0
  const NOTIONAL_CAP_USD := 1_500.0
  const OPEN_RISK_CAP_USD := 480.0
  const GROSS_NOTIONAL_CAP_USD := 6_000.0
  const BETA_WEIGHTED_NOTIONAL_CAP_USD := 6_000.0
  const DAILY_HALT_USD := 240.0
  const WEEKLY_HALT_USD := 480.0
  const BOOK_HALT_USD := -1_600.0
  const BACKSTOP_DAILY_USD := 900.0
  const BACKSTOP_PAIR_USD := 500.0
  const BACKSTOP_BOOK_USD := 8_000.0
  const NO_REENTRY_MS := 86_400_000
  const CLASS_R_KILL := 20.0
  const CLASS_DOLLAR_BACKSTOP_USD := 1_200.0

  datatype ClassId = A | B

  datatype Bar = Bar(ts: int, open: real, high: real, low: real, close: real)

  datatype Daily = Daily(close: real, low: real, atr: real)

  /** A pair's bars, each stored under its own timestamp. */
  type BarMap = m: map<int, Bar> | forall ts :: ts in m ==> m[ts].ts == ts

  datatype Pair = Pair(bars: BarMap, daily: map<int, Daily>, atr1h: int -> real, clusterOf: int -> string)

  datatype Candidate = Candidate(classId: ClassId, productId: string, signalDate: int, entryTs: int, stopDistance: real)

  datatype ExitAt = AtOpen | AtClose

  datatype RuleExit = RuleExit(ts: int, at: ExitAt)

  /** Anything above -10,000 bps keeps the entry fill positive. */
  type SpreadBps = s: real | -10_000.0 < s

  datatype Config = Config(
    pairs: map<string, Pair>,
    candidates: seq<Candidate>,
    ruleExit: (Candidate, real, real) -> Option<RuleExit>,
    sBtBps: SpreadBps,
    endTs: int,
    costBps: Option<real>,
    betaOf: Option<(string, int) -> Option<real>>,
    clusterMaxOpen: int)

  datatype PositionRecord = PositionRecord(
    classId: ClassId, productId: string, signalDate: int, entryTs: int,
    rawEntry: real, fillEntry: real, units: real, notionalUsd: real,
    stop: real, highestClose: Option<real>, ruleExit: Option<RuleExit>,
    cluster: string, lastBar: Bar, entryRiskUsd: real, stopBps: real, costBps: real,
    beta: Option<real>, stopMoved: bool)

  const FLAT_BAR := Bar(0, 1.0, 1.0, 1.0, 1.0)

  /** Entries are only made at positive prices. */
  type Position = p: PositionRecord | p.rawEntry > 0.0 && p.fillEntry > 0.0
    witness PositionRecord(A, "", 0, 0, 1.0, 1.0, 0.0, 0.0, 0.0, None, None, "", FLAT_BAR, 0.0, 0.0, 0.0, None, false)

  datatype Reason = Stop | Gap | Rule | Window

  datatype Trade = Trade(
    classId: ClassId, productId: string, signalDate: int, entryTs: int, exitTs: int,
    reason: Reason, windowMark: bool,
    rawEntry: real, rawExit: real, fillEntry: real, fillExit: real,
    units: real, notionalUsd: real, grossBps: real, netBps: real, grossUsd: real, netUsd: real,
    entryRiskUsd: real, stopBps: real, costBps: real)

  datatype Gate =
    | Reentry | OnePerPair | SlotA | SlotB | BookSlots | Cluster | OpenRisk | GrossNotional
    | DailyHalt | WeeklyHalt | BookHalt | DailyBackstop | PairBackstop | BookBackstop | Beta | ClassRKill

  datatype ByClass<T> = ByClass(a: T, b: T) {
    function Of(c: ClassId): T {
      if c == A then a else b
    }

    function With(c: ClassId, x: T): ByClass<T> {
      if c == A then ByClass(x, b) else ByClass(a, x)
    }
  }

  /** A class's closed-trade curve in R and in dollars, with the running peak of each. */
  datatype Curve = Curve(r: real, peakR: real, usd: real, peakUsd: real, killed: bool)

  datatype Watermark = Watermark(key: Option<int>, equity: real)

  datatype LogRow = LogRow(productId: string, entryTs: int, taken: bool, notionalUsd: real, riskUsd: real)

  /** The counters of the book. A gate's hit count is its multiplicity. */
  datatype Tally = Tally(
    attempts: nat, taken: nat, noBar: nat, invalidStop: nat, betaUnresolved: nat,
    hits: multiset<Gate>, hitsByClass: ByClass<multiset<Gate>>, log: seq<LogRow>, maxOpen: nat)

  datatype State = State(
    open: seq<Position>, trades: seq<Trade>, lastExit: map<string, int>, pairPnl: map<string, real>,
    realized: real, peakEquity: real, curves: ByClass<Curve>, day: Watermark, week: Watermark,
    tally: Tally, threw: bool)

  const START_CURVE := Curve(0.0, 0.0, 0.0, 0.0, false)

  const START := State(
    [], [], map[], map[], 0.0, 0.0, ByClass(START_CURVE, START_CURVE),
    Watermark(None, 0.0), Watermark(None, 0.0),
    Tally(0, 0, 0, 0, 0, multiset{}, ByClass(multiset{}, multiset{}), [], 0), false)

  // ----- prices, sizes and risk

  function GrossBps(rawEntry: real, rawExit: real): real
    requires rawEntry != 0.0
  {
    (rawExit - rawEntry) / rawEntry * 10_000.0
  }

  function NetBps(fillEntry: real, fillExit: real): real
    requires fillEntry != 0.0
  {
    (fillExit - fillEntry) / fillEntry * 10_000.0 - TAKER_FEE_BPS - TAKER_FEE_BPS
  }

  function BuyFill(price: real, sBtBps: real): real {
    price * (1.0 + sBtBps / 10_000.0)
  }

  function SellFill(price: real, sBtBps: real): real {
    price * (1.0 - sBtBps / 10_000.0)
  }

  function StopFill(stop: real, entry: real, sBtBps: real, atr1h: real): real {
    stop - Max(if entry > 0.0 then entry * sBtBps / 10_000.0 else 0.0, 0.1 * atr1h)
  }

  datatype Fill = StopAt(price: real) | TargetAt(price: real) | NoFill

  /** No target stands for a target at infinity. */
  function IntrabarFill(bar: Bar, stop: real, target: Option<real>): Fill {
    if bar.open <= stop then StopAt(bar.open)
    else if bar.low <= stop then StopAt(stop)
    else if target.Some? && bar.high >= target.value then TargetAt(target.value)
    else NoFill
  }

  function SizingCostBps(sBtBps: real): real {
    2.0 * (TAKER_FEE_BPS + sBtBps)
  }

  function CostBps(cfg: Config): real {
    if cfg.costBps.Some? then cfg.costBps.value else SizingCostBps(cfg.sBtBps)
  }

  /** The source throws when the load is not positive. */
  function NotionalUsd(load: real): real
    requires load > 0.0
  {
    Min(NOTIONAL_CAP_USD, RISK_USD / (load / 10_000.0))
  }

  function EntryOpenRiskUsd(notional: real, load: real): real {
    notional * load / 10_000.0
  }

  function OpenRiskAfterMove(units: real, entry: real, stop: real, sBtBps: real): real {
    units * Max(0.0, entry - stop) + units * Max(0.0, stop) * (TAKER_FEE_BPS + sBtBps) / 10_000.0
  }

  function LiveRisk(p: Position, sBtBps: real): real {
    if !p.stopMoved then p.entryRiskUsd else OpenRiskAfterMove(p.units, p.fillEntry, p.stop, sBtBps)
  }

  function MarkUsd(p: Position, sBtBps: real): real {
    NetBps(p.fillEntry, SellFill(p.lastBar.close, sBtBps)) / 10_000.0 * p.units * p.fillEntry
  }

  function BetaWeight(beta: real): real {
    Max(beta, 0.0)
  }

  function DateOf(ts: int): int {
    ts / DAY
  }

  /** Weeks start on Monday; day 0 was a Thursday. */
  function WeekOf(day: int): int {
    (day + 3) / 7
  }

  /** The remainder of a negative timestamp is not positive in the source. */
  predicate IsDayCloseBar(ts: int) {
    0 <= ts && ts % DAY == DAY - BAR
  }

  // ----- what a run sums and counts

  function RiskOf(sBtBps: real): Position -> real {
    (p: Position) => LiveRisk(p, sBtBps)
  }

  function MarkOf(sBtBps: real): Position -> real {
    (p: Position) => MarkUsd(p, sBtBps)
  }

  function NotionalOf(p: Position): real {
    p.notionalUsd
  }

  function BetaNotionalOf(p: Position): real {
    p.notionalUsd * BetaWeight(if p.beta.Some? then p.beta.value else 0.0)
  }

  function OfClass(c: ClassId): Position -> bool {
    (p: Position) => p.classId == c
  }

  function InCluster(cluster: string): Position -> bool {
    (p: Position) => p.cluster == cluster
  }

  function PairMarkOf(productId: string, sBtBps: real): Position -> real {
    (p: Position) => if p.productId == productId then MarkUsd(p, sBtBps) else 0.0
  }

  function Equity(s: State, sBtBps: real): real {
    s.realized + Sum(s.open, MarkOf(sBtBps))
  }

  // ----- closing

  function CloseTrade(p: Position, reason: Reason, rawExit: real, fillExit: real, windowMark: bool): Trade {
    var gross := GrossBps(p.rawEntry, rawExit);
    var net := NetBps(p.fillEntry, fillExit);
    Trade(
      p.classId, p.productId, p.signalDate, p.entryTs, p.lastBar.ts, reason, windowMark,
      p.rawEntry, rawExit, p.fillEntry, fillExit, p.units, p.notionalUsd, gross, net,
      p.units * (rawExit - p.rawEntry), net / 10_000.0 * p.units * p.fillEntry,
      p.entryRiskUsd, p.stopBps, p.costBps)
  }

  function ROf(t: Trade): real {
    if t.entryRiskUsd > 0.0 then t.netUsd / t.entryRiskUsd else 0.0
  }

  predicate ClassKillTripped(c: Curve) {
    c.peakR - c.r >= CLASS_R_KILL || c.peakUsd - c.usd >= CLASS_DOLLAR_BACKSTOP_USD
  }

  function Advance(c: Curve, t: Trade): Curve {
    var r := c.r + ROf(t);
    var usd := c.usd + t.netUsd;
    var next := Curve(r, Max(c.peakR, r), usd, Max(c.peakUsd, usd), c.killed);
    next.(killed := c.killed || ClassKillTripped(next))
  }

  function BumpPeak(cfg: Config, s: State): State {
    s.(peakEquity := Max(s.peakEquity, Equity(s, cfg.sBtBps)))
  }

  function PairPnl(s: State, productId: string): real {
    if productId in s.pairPnl then s.pairPnl[productId] else 0.0
  }

  function Realize(cfg: Config, s: State, t: Trade): State {
    BumpPeak(cfg, s.(
      trades := s.trades + [t],
      realized := s.realized + t.netUsd,
      pairPnl := s.pairPnl[t.productId := PairPnl(s, t.productId) + t.netUsd],
      curves := s.curves.With(t.classId, Advance(s.curves.Of(t.classId), t)),
      lastExit := s.lastExit[t.productId := t.exitTs]))
  }

  /** Position i leaves the book; `bar` is the last bar it has seen. */
  function Drop(cfg: Config, s: State, i: nat, bar: Bar, reason: Reason, rawExit: real, fillExit: real): State
    requires i < |s.open|
  {
    var p := s.open[i].(lastBar := bar);
    Realize(cfg, s.(open := Without(s.open, i)), CloseTrade(p, reason, rawExit, fillExit, reason == Window))
  }

  // ----- one step of each kind

  function BarAt(cfg: Config, productId: string, ts: int): Option<Bar> {
    if productId in cfg.pairs && ts in cfg.pairs[productId].bars
    then Some(cfg.pairs[productId].bars[ts])
    else None
  }

  function OpenBar(cfg: Config, s: State, ts: int): State {
    var day := DateOf(ts);
    var week := WeekOf(day);
    var now := Equity(s, cfg.sBtBps);
    s.(day := if s.day.key == Some(day) then s.day else Watermark(Some(day), now),
       week := if s.week.key == Some(week) then s.week else Watermark(Some(week), now))
  }

  function GapExit(cfg: Config, s: State, i: nat, ts: int): State
    requires i < |s.open|
  {
    var bar := BarAt(cfg, s.open[i].productId, ts);
    if bar.Some? && bar.value.open <= s.open[i].stop
    then Drop(cfg, s, i, bar.value, Gap, bar.value.open, bar.value.open)
    else s
  }

  /** What an entry would be, before the gates look at it. */
  datatype Quote = Quote(bar: Bar, initialStop: real, stopBps: real, notional: real, fillEntry: real,
                         addRisk: real, cluster: string, rawBeta: Option<real>)

  predicate ValidStop(bar: Bar, stopDistance: real) {
    0.0 < bar.open - stopDistance < bar.open
  }

  function StopBps(bar: Bar, stopDistance: real): real
    requires ValidStop(bar, stopDistance)
  {
    (bar.open - (bar.open - stopDistance)) / bar.open * 10_000.0
  }

  function QuoteOf(cfg: Config, c: Candidate, ts: int, bar: Bar): Quote
    requires c.productId in cfg.pairs && ValidStop(bar, c.stopDistance)
    requires StopBps(bar, c.stopDistance) + CostBps(cfg) > 0.0
  {
    var load := StopBps(bar, c.stopDistance) + CostBps(cfg);
    var notional := NotionalUsd(load);
    Quote(
      bar, bar.open - c.stopDistance, StopBps(bar, c.stopDistance), notional, BuyFill(bar.open, cfg.sBtBps),
      EntryOpenRiskUsd(notional, load), cfg.pairs[c.productId].clusterOf(DateOf(ts)),
      if cfg.betaOf.Some? then cfg.betaOf.value(c.productId, DateOf(ts)) else None)
  }

  function AppliedBeta(q: Quote): real {
    if q.rawBeta.Some? then q.rawBeta.value else 1.0
  }

  /** What the gates read off the book before they decide. */
  datatype Readings = Readings(
    lastExit: Option<int>, held: bool, classOpen: nat, bookOpen: nat, clusterOpen: nat,
    openRisk: real, gross: real, weighted: Option<real>,
    dailyLoss: real, weeklyLoss: real, drawdown: real, pairLoss: real, killed: bool)

  /** The beta-weighted notional the book would have with the entry. */
  function BetaWeighted(open: seq<Position>, q: Quote): real {
    Sum(open, BetaNotionalOf) + q.notional * BetaWeight(AppliedBeta(q))
  }

  predicate HoldsPair(open: seq<Position>, productId: string) {
    exists p :: p in open && p.productId == productId
  }

  function ReadingsOf(cfg: Config, s: State, c: Candidate, q: Quote): Readings {
    var now := Equity(s, cfg.sBtBps);
    var curve := s.curves.Of(c.classId);
    Readings(
      if c.productId in s.lastExit then Some(s.lastExit[c.productId]) else None,
      HoldsPair(s.open, c.productId),
      Count(s.open, OfClass(c.classId)), |s.open|, Count(s.open, InCluster(q.cluster)),
      Sum(s.open, RiskOf(cfg.sBtBps)), Sum(s.open, NotionalOf),
      if cfg.betaOf.Some?
      then Some(BetaWeighted(s.open, q))
      else None,
      Max(0.0, s.day.equity - now), Max(0.0, s.week.equity - now), Max(0.0, s.peakEquity - now),
      Max(0.0, -(PairPnl(s, c.productId) + Sum(s.open, PairMarkOf(c.productId, cfg.sBtBps)))),
      curve.killed || ClassKillTripped(curve))
  }

  predicate Fails(cfg: Config, c: Candidate, ts: int, q: Quote, r: Readings, g: Gate) {
    match g
    case Reentry => r.lastExit.Some? && ts * 1000 - r.lastExit.value * 1000 < NO_REENTRY_MS
    case OnePerPair => r.held
    case SlotA => c.classId == A && r.classOpen >= SLOT_CAP_A
    case SlotB => c.classId == B && r.classOpen >= SLOT_CAP_B
    case BookSlots => r.bookOpen >= MAX_POSITIONS
    case Cluster => r.clusterOpen >= cfg.clusterMaxOpen
    case OpenRisk => r.openRisk + q.addRisk > OPEN_RISK_CAP_USD
    case GrossNotional => r.gross + q.notional > GROSS_NOTIONAL_CAP_USD
    case Beta => r.weighted.Some? && r.weighted.value > BETA_WEIGHTED_NOTIONAL_CAP_USD
    case DailyHalt => r.dailyLoss >= DAILY_HALT_USD
    case WeeklyHalt => r.weeklyLoss >= WEEKLY_HALT_USD
    case BookHalt => r.drawdown >= -BOOK_HALT_USD
    case DailyBackstop => r.dailyLoss >= BACKSTOP_DAILY_USD
    case PairBackstop => r.pairLoss >= BACKSTOP_PAIR_USD
    case BookBackstop => r.drawdown >= BACKSTOP_BOOK_USD
    case ClassRKill => r.killed
  }

  predicate GateFails(cfg: Config, s: State, c: Candidate, ts: int, q: Quote, g: Gate) {
    Fails(cfg, c, ts, q, ReadingsOf(cfg, s, c, q), g)
  }

  function FailedGates(cfg: Config, s: State, c: Candidate, ts: int, q: Quote): set<Gate> {
    var r := ReadingsOf(cfg, s, c, q);
    set g: Gate | Fails(cfg, c, ts, q, r, g)
  }

  function NewPosition(cfg: Config, c: Candidate, ts: int, q: Quote): Position
    requires q.bar.open > 0.0 && q.fillEntry > 0.0
  {
    PositionRecord(
      c.classId, c.productId, c.signalDate, ts, q.bar.open, q.fillEntry, q.notional / q.fillEntry, q.notional,
      q.initialStop, None, cfg.ruleExit(c, q.bar.open, q.initialStop), q.cluster, q.bar,
      q.addRisk, q.stopBps, CostBps(cfg),
      if cfg.betaOf.Some? then Some(AppliedBeta(q)) else None, false)
  }

  /** The attempt reaches the gates: it is logged, then rejected with every failed gate, or admitted. */
  function Decide(cfg: Config, s: State, c: Candidate, ts: int, q: Quote): State
    requires q.bar.open > 0.0 && q.fillEntry > 0.0
  {
    var failed := FailedGates(cfg, s, c, ts, q);
    var t := s.tally.(
      attempts := s.tally.attempts + 1,
      betaUnresolved := s.tally.betaUnresolved + (if cfg.betaOf.Some? && q.rawBeta == None then 1 else 0),
      log := s.tally.log + [LogRow(c.productId, ts, failed == {}, q.notional, q.addRisk)]);
    if failed != {} then
      s.(tally := t.(hits := t.hits + multiset(failed),
                     hitsByClass := t.hitsByClass.With(c.classId, t.hitsByClass.Of(c.classId) + multiset(failed))),
         curves := if ClassRKill in failed
                   then s.curves.With(c.classId, s.curves.Of(c.classId).(killed := true)) else s.curves)
    else
      s.(tally := t.(taken := t.taken + 1, maxOpen := MaxInt(t.maxOpen, |s.open| + 1)),
         open := s.open + [NewPosition(cfg, c, ts, q)])
  }

  lemma FillIsPositive(cfg: Config, bar: Bar)
    requires bar.open > 0.0
    ensures BuyFill(bar.open, cfg.sBtBps) > 0.0
  {
    var scale := 1.0 + cfg.sBtBps / 10_000.0;
    assert scale > 0.0;
    ProductPositive(bar.open, scale);
  }

  function Attempt(cfg: Config, s: State, c: Candidate, ts: int): State {
    var bar := BarAt(cfg, c.productId, ts);
    if bar == None then
      s.(tally := s.tally.(attempts := s.tally.attempts + 1, noBar := s.tally.noBar + 1))
    else if !ValidStop(bar.value, c.stopDistance) then
      s.(tally := s.tally.(attempts := s.tally.attempts + 1, invalidStop := s.tally.invalidStop + 1))
    else if StopBps(bar.value, c.stopDistance) + CostBps(cfg) <= 0.0 then
      s.(threw := true)
    else
      FillIsPositive(cfg, bar.value);
      Decide(cfg, s, c, ts, QuoteOf(cfg, c, ts, bar.value))
  }

  function Trailed(cfg: Config, p: Position): Position {
    if p.classId == A && IsDayCloseBar(p.lastBar.ts) && p.productId in cfg.pairs
       && DateOf(p.lastBar.ts) in cfg.pairs[p.productId].daily then
      var daily := cfg.pairs[p.productId].daily[DateOf(p.lastBar.ts)];
      if daily.close > 0.0 && daily.atr > 0.0 then
        var highest := if p.highestClose.Some? then Max(p.highestClose.value, daily.close) else daily.close;
        var next := Max(p.stop, highest - TRAIL_ATR * daily.atr);
        p.(highestClose := Some(highest), stop := next, stopMoved := p.stopMoved || next > p.stop)
      else p
    else p
  }

  function Atr1h(cfg: Config, productId: string, ts: int): real {
    if productId in cfg.pairs then cfg.pairs[productId].atr1h(ts) else 0.0
  }

  /** Stop, then rule exit, then trail, for position i at the bar `ts`. */
  function Manage(cfg: Config, s: State, i: nat, ts: int): State
    requires i < |s.open|
  {
    var p := s.open[i];
    var found := if p.lastBar.ts == ts then Some(p.lastBar) else BarAt(cfg, p.productId, ts);
    if found == None then s
    else
      var bar := found.value;
      if IntrabarFill(bar, p.stop, None).StopAt? && bar.open > p.stop then
        Drop(cfg, s, i, bar, Stop, p.stop, StopFill(p.stop, p.rawEntry, cfg.sBtBps, Atr1h(cfg, p.productId, ts)))
      else if p.ruleExit.Some? && p.ruleExit.value.at == AtOpen && bar.ts == p.ruleExit.value.ts then
        Drop(cfg, s, i, bar, Rule, bar.open, SellFill(bar.open, cfg.sBtBps))
      else if p.ruleExit.Some? && p.ruleExit.value.at == AtClose
              && bar.ts < p.ruleExit.value.ts <= bar.ts + BAR then
        Drop(cfg, s, i, bar, Rule, bar.close, SellFill(bar.close, cfg.sBtBps))
      else
        s.(open := s.open[i := Trailed(cfg, p.(lastBar := bar))])
  }

  function WindowExit(cfg: Config, s: State, i: nat): State
    requires i < |s.open|
  {
    var bar := s.open[i].lastBar;
    Drop(cfg, s, i, bar, Window, bar.close, SellFill(bar.close, cfg.sBtBps))
  }

  // ----- the run

  function GapPhase(cfg: Config, s: State, ts: int, i: nat): State
    decreases |s.open| - i
  {
    if i >= |s.open| then s
    else
      var next := GapExit(cfg, s, i, ts);
      GapPhase(cfg, next, ts, if |next.open| < |s.open| then i else i + 1)
  }

  function EntryPhase(cfg: Config, s: State, due: seq<Candidate>, ts: int): State
    decreases |due|
  {
    if due == [] || s.threw then s else EntryPhase(cfg, Attempt(cfg, s, due[0], ts), due[1..], ts)
  }

  function ManagePhase(cfg: Config, s: State, ts: int, i: nat): State
    decreases |s.open| - i
  {
    if i >= |s.open| then s
    else
      var next := Manage(cfg, s, i, ts);
      ManagePhase(cfg, next, ts, if |next.open| < |s.open| then i else i + 1)
  }

  function WindowPhase(cfg: Config, s: State): State
    decreases |s.open|
  {
    if s.open == [] then s else WindowPhase(cfg, WindowExit(cfg, s, 0))
  }

  /** Class A ranks before class B; names break ties. */
  predicate RanksBefore(x: Candidate, y: Candidate) {
    if x.classId != y.classId then x.classId == A else Less(x.productId, y.productId)
  }

  function EnteringAt(candidates: seq<Candidate>, ts: int): seq<Candidate> {
    if candidates == [] then []
    else
      var n := |candidates| - 1;
      EnteringAt(candidates[..n], ts) + if candidates[n].entryTs == ts then [candidates[n]] else []
  }

  function Due(cfg: Config, ts: int): seq<Candidate> {
    Sort(EnteringAt(cfg.candidates, ts), RanksBefore)
  }

  function StartTs(candidates: seq<Candidate>, endTs: int): int {
    if candidates == [] then endTs
    else
      var n := |candidates| - 1;
      var rest := StartTs(candidates[..n], endTs);
      if candidates[n].entryTs < rest then candidates[n].entryTs else rest
  }

  function BarStep(cfg: Config, s: State, ts: int): State {
    var entered := EntryPhase(cfg, GapPhase(cfg, OpenBar(cfg, s, ts), ts, 0), Due(cfg, ts), ts);
    if entered.threw then entered else BumpPeak(cfg, ManagePhase(cfg, entered, ts, 0))
  }

  /** The bars from `ts` on, every fifteen minutes. */
  function RunFrom(cfg: Config, s: State, ts: int): State
    decreases cfg.endTs - ts
  {
    if ts >= cfg.endTs || s.threw then s else RunFrom(cfg, BarStep(cfg, s, ts), ts + BAR)
  }

  function Run(cfg: Config): State {
    var s := RunFrom(cfg, START, StartTs(cfg.candidates, cfg.endTs));
    if s.threw then s else WindowPhase(cfg, s)
  }
}
