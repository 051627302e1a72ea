# Verified cores of the paper-trading harness

A Dafny model of the parts of the trading repository whose correctness is a mathematical question:
the capped portfolio book and its one-trade reference, the two clusterings, the hindsight oracle,
the exact data path from candle text to derived bars, the breakout signal in its two forms, the two
ledgers, the volume window and the multiple-testing corrections. `dafny verify dfyconfig.toml`
checks everything.

Code that updates state in the source is a class or a method with its loops here, proved against a
function of the inputs or of the old state; what the source promises is then proved of that function
for all inputs, or over all runs. Money, prices and p-values are exact reals; sizes that the source
compares with 1e-12 are whole units, except in the volume window, where the threshold itself matters.
The taker fee is the constant 90 bps.

## Layout

- `BookModel` is the book as a state machine: what one gap exit, one attempt, one managed position
  and one bar do. `BookRun` is the book as it runs, a class whose methods update the fields in the
  source's order and record every step; `RunBook` ties the result to the record. `BookSafety` defines
  a run as a list of such steps and proves the caps at every instant. What the steps and the values
  mean, in the market's terms and over all runs, is in `BookTrades` (entries, exits, dollars),
  `BookTrail` (stops), `BookPhases` (one bar) and `BookCauses` (why an attempt is turned away).
  `BookRisk`, `BookGates`, `BookKill`, `BookTimeline`, `BookLedger`, `BookMarks`, `BookEquity`,
  `BookAttempts` and `BookListing` prove the rest of what holds over all runs, and `BookWitnesses`
  shows runs at the edge. `WalkLong` is the one-trade walk and the proof that the book refines it.
- `AverageLinkage` is the algorithm; `LinkageMeans` says what its means are; `LinkageOrder` proves
  its result and that ties may be broken either way; `LinkageExact` says exactly when the input order
  cannot matter. `SingleLinkage` is union-find with path compression.
- `OracleTrades` is the dynamic program over prefixes with its read-back.
- `Decimals`, `CandleText`, `CandleChunks`, `CandleDownload`, `FoldHours`, `DeriveBars`,
  `DeriveFolds` and `DeriveKept` are the data path: exact decimals, the hand-written reader, chunks
  and resumable download, and the aggregations with their composition laws.
- `Breakout` and `BreakoutSignal` set streamed buckets against batch aggregation and the carried
  signal state against the live snapshot.
- `TaxLots`, `TaxLedger` and `Accounting` are the two ledgers; `VolumeRing` is the 900-slot ring and
  `VolumeWindow` says what it holds; `Corrections` is Holm and Benjamini-Hochberg.
- `Basics` and `Sorting` hold sums, extrema, the stable sort and string order.

## Where the code and its promises part

- Average linkage is documented as deterministic. Its clusters do depend on the order of the ids
  when a name joins with two different partners to the same NUL-joined label, which takes ids that
  contain a NUL; in every other case they do not. `OrderFreeExactly` is the exact condition.
- The book tries only candidates on the quarter-hour grid of the earliest entry, and stops at the
  first it cannot size (`TriedAreTheGridCandidates`, `RunThrowsExactly`). A candidate off that grid is
  never attempted and not counted: `OneSecondLate` is such a run, and `EveryoneIsTriedExactly` says
  when there is none.
- Of two candidates of one class, pair and entry time the book takes the one listed first
  (`ListingCanMatter`); without such a pair a run does not depend on the order of the list.
- The eight-position gate can never reject, and the kill re-evaluated at the gate can never add to
  the latch set when a trade closes.
- A moved stop keeps live risk within entry risk up to twice the fill, when the sizing cost is at
  least two exit legs, as it is by default, and an exit leg is not negative. In the run of
  `UncoveredCanExceed` an explicit cost is lower and it does not; in that of `NegativeLegCanExceed`
  the spread is under -90 bps. `LiveRiskExceedsEntryRisk` is the exact condition on a position,
  `LegDecidesCover` the one on the spread.
- With a breakout look-back of zero the backtest compares with the highest earlier bar of all, the
  live book with nothing; with a negative one the live book leaves out one bar fewer. So their
  verdicts can differ (`ZeroLookBackDisagrees`, `NegativeLookBackDisagrees`). `VerdictsAgreeExactly`
  says on which bars they do; from a look-back of one bar on, on none.
- A trade that arrives 900 seconds or more behind the newest is filed under a second still in the
  window (`LateTradeIsCounted`); `BucketIsPlainExactly` and `SumIsPlainExactly` say when that shows.
  A volume below 1e-12 is forgotten when the window next moves; `ThresholdExactly` says that only
  such volumes are.
- After an oversold pair the account and the tax worksheet never hold the same position again
  (`PositionsAgreeExactly`). Realized less basis, they differ by exactly the cash of the clamped
  sells (`LedgersDifferByClamped`); the realized totals alone need not differ
  (`OversoldRealizedAlike`).

## Model

| member | source | states |
|---|---|---|
| `BookRun.RunBook` | research/src/p5/book.ts:229-455 | The book as it runs, method by method in the source's order: a whole run returns what its recorded steps add up to; the caps hold after every step; at the end the book is flat and every accepted entry is one closed trade; the candidates it tries are the bars' due lists from the start on, up to the first that cannot be sized; no result means that sizing threw |
| `BookRun.GroupByEntry` | research/src/p5/book.ts:243-250 | Candidates grouped by entry time keep their order; the start is the earliest entry before the end |
| `BookCauses.EntryIsDecidedByCauses` | research/src/p5/book.ts:327-418 | At every instant of every run, an attempt that has its bar, a usable stop and a positive load counts one hit for each cause that holds and none other, in all and for its class, and one log row; it leaves the positions as they were if and only if some cause holds, and otherwise the candidate is taken at its bar's open. The causes, each for its own gate: a trade of the pair ended less than a day before; the pair is held; 3 A or 4 B, 8 in all, or clusterMaxOpen of the cluster are held; live risk and its own above $480, notional above $6,000, beta-weighted above $6,000; equity $240 or $900 under the day's mark, $480 under the week's, $1,600 or $8,000 under the peak, $500 lost on the pair; the class fell 20 R or $1,200 |
| `BookCauses.OtherAttempts` | research/src/p5/book.ts:328-342 | An attempt without its bar, or with a stop not between nothing and the open, is counted as that and changes nothing else; any other throws if and only if its load is not positive |
| `BookPhases.BarVisitsAll` | research/src/p5/book.ts:318-447 | One bar: everyone whose bar opens at or below the stop is out first, then candidates enter behind those that stay, then each position held, old and new, is managed exactly once, in order |
| `BookPhases.BarMarksFirst` | research/src/p5/book.ts:307-317 | A bar marks the equity it finds, before anything else, when its day or its week is new, and ends with the peak no lower than the equity it leaves |
| `BookTrades.TradesAreAsMarketed` | research/src/p5/book.ts:190-218 | At every instant of every run every position and every closed trade is as the market made it: the open of its entry bar, the fill over it by the spread, the notional that risks $60 up to $1,500, cluster and beta of its day, its rule exit; a gap sold at the open, a stop at or over the bar's low and under its open, filled below it by the larger of the spread on the raw entry and a tenth of the ATR, a rule at its open or its close when due, the window at the last close, each of the last two less the spread; gross and net in bps and in dollars |
| `BookTrades.GapDecides` | research/src/p5/book.ts:318-325 | A gap check closes a position, at the open of its bar, if and only if that is at or below its stop |
| `BookTrades.ManageDecides` | research/src/p5/book.ts:420-446 | Managed on its bar, a position is stopped if the bar opens above the stop and trades at it; else sold if its rule is due, at the open on the rule's bar or at the close on the bar that ends with it; else it stays and only its trail may move |
| `BookTrail.StopIsTrail` | research/src/p5/book.ts:438-446 | At every instant of every run, for every position: the highest close is that of all the days it was trailed on, the stop is the greatest of the initial one and of three ATR under the highest close so far on each of these days, and it counts as moved if and only if it is above the initial one |
| `BookTrail.StopIsGreatest` | research/src/p5/book.ts:441-444 | That stop is one of those values and none of them is higher |
| `BookSafety.CapsAlways` | research/src/p5/book.ts:359-384 | At every instant of every run: at most 3 A and 4 B positions, one per pair, `clusterMaxOpen` per cluster, gross notional at most $6,000, beta-weighted notional at most $6,000 when betas are given |
| `BookCauses.CappedAlways` | research/src/p5/book.ts:359-384 | The caps in numbers, told from the market: 3, 4 and 7 positions, one a pair, the cluster's by the day of entry, $6,000 notional and $6,000 weighted by the betas of the days of entry |
| `BookSafety.StepEffect` | research/src/p5/book.ts:318-452 | Any step of a run does one of four things: it admits the candidate of its bar with no gate failing, by appending its position, or leaves the positions as they were; it closes one position; it moves the last bar and the trail of one position and changes nothing else; or it moves only the day, week and peak marks |
| `BookGates.BookSlotsNeverFires` | research/src/p5/book.ts:365 | The eight-position gate never rejects anything in any run |
| `BookGates.OpenRiskFiresOnlyAfterRunaway` | research/src/p5/book.ts:368 | Sized at two exit legs or more, as by default, on a spread from -90 bps up, a $480 open-risk rejection is preceded by an instant at which some stop had trailed above twice its fill |
| `BookWitnesses.OpenRiskCanFire` | research/src/p5/book.ts:368 | Such a rejection happens: a run at the default cost on no spread in which the first position's day closes at a hundred times its fill |
| `BookRisk.SizeBounds` | research/src/p3/portfolio.ts:11-15 | Notional is positive and at most $1,500; an entry risks exactly $60, or less because the notional is at its cap |
| `BookRisk.LiveRiskExceedsEntryRisk` | research/src/p5/book.ts:180-183 | For every sizing cost and spread, a position's live risk exceeds its entry risk if and only if its stop has moved and what is left to the stop plus one exit leg on it, in bps of the prices, is more than the load on the fill |
| `BookRisk.BelowFillIsCovered` | research/src/p5/risk.ts:28-37 | With the sizing cost at two exit legs or more and an exit leg that is not negative, that is never so for a stop at or below the fill |
| `BookRisk.LegDecidesCover` | research/src/p5/risk.ts:13-26 | Sized at exactly two exit legs, no stop at or below the fill can risk more than its entry did if and only if the spread is -90 bps or more, or -5090 bps or less, where no entry can be sized |
| `BookRisk.LiveRiskWithinEntryRisk` | research/src/p5/risk.ts:28-37 | With the sizing cost at two exit legs or more and an exit leg that is not negative, live risk never exceeds entry risk while the stop is at most twice the fill |
| `BookWitnesses.UncoveredCanExceed` | research/src/p5/book.ts:242 | A run sized without costs in which a class A stop trails up to its fill and risks $13.50, after $1.50 at entry |
| `BookWitnesses.NegativeLegCanExceed` | research/src/p5/risk.ts:13-20 | A run sized as by default on a spread of -100 bps in which a stop that trails below its fill risks more than its entry did |
| `BookKill.KilledExactlyOnDrawdown` | research/src/p5/book.ts:289-296 | At every instant a class is killed exactly when its closed trades have at some time stood 20R or $1,200 below an earlier point |
| `BookKill.KilledInNumbers` | research/src/p5/book.ts:289-296 | At every instant a class is killed if and only if its closed trades, in closing order, once stood 20 times risk or $1,200 under an earlier total, R being net dollars over the dollars risked |
| `BookKill.KillIsForever` | research/src/p5/book.ts:381-384 | Once that happened the class has no further entry, whatever follows and however its curve recovers |
| `BookKill.TrippedIsKilled` | research/src/p5/risk.ts:136-138 | The gate's own re-evaluation of the kill never adds to the latch |
| `BookTimeline.TimelyAlways` | research/src/p3/design-rules.ts:229-232 | Over every run two trades of one pair never overlap, and the later begins a day or more after the earlier ends |
| `BookTimeline.StopNeverFalls` | research/src/p5/book.ts:438-446 | Between any two instants of a run a position still held has a stop no lower than before |
| `BookLedger.BalancedAlways` | research/src/p5/book.ts:285-299 | At every instant: realized is the sum of closed net dollars, pair by pair too; accepted entries are open or closed; attempts are no-bar plus invalid-stop plus decided; every gate's hits split by class |
| `BookLedger.FlatBookReconciles` | research/src/p5/book.ts:450-454 | When flat, accepted entries and closed trades are the same multiset of pair and entry time |
| `BookLedger.MaxOpenIsReached` | research/src/p5/book.ts:394 | The published maximum is the most positions held at any instant of the run, and some instant held that many |
| `BookMarks.PeakIsGreatest` | research/src/p5/book.ts:280-283 | At every instant of every run the peak is the greatest equity after any bar's end or close so far, or zero when none was above it |
| `BookMarks.MarkIsFirstBar` | research/src/p5/book.ts:308-317 | The mark of the current UTC day, and of the current Monday week, is the equity the book stood at before the first bar of it |
| `BookMarks.CurrentHasFirst` | research/src/p5/book.ts:307-317 | As time does not go back in a run, the current day and week have such a first bar as soon as there was any bar |
| `BookMarks.DatesAndWeeks` | research/src/p5/stats.ts:45-50 | A day is its 86,400 seconds; two days share a week if and only if they share the Monday on or before them |
| `BookMarks.EntriesRespectHalts` | research/src/p5/book.ts:353-379 | No position of any run is opened with equity $240 or more under where its day began, $480 or more under where its week began, $1,600 or more under zero or under the equity after any earlier bar or close, or with $500 or more lost on its pair |
| `BookEquity.NetDollars` | research/src/p5/book.ts:190-210 | A closed trade's net dollars are its units times the move from fill to fill, less a taker fee on the entry value for each leg |
| `BookEquity.MarkIsExit` | research/src/p5/book.ts:185-188 | A position's mark is the net dollars of selling it at its last close |
| `BookEquity.WindowRealizesEquity` | research/src/p5/book.ts:450-452 | Marking out at the end empties the book and realizes exactly the equity it stood at |
| `BookEquity.DueAreRanked` | research/src/p5/book.ts:251-253 | On a bar the candidates due are those entering then, each as often as it is listed, class A before class B, names ascending within a class |
| `Sorting.LessIsLexicographic` | research/src/p5/book.ts:252 | A name is less than another if and only if it is a proper start of it, or has the smaller character at the first place where they differ |
| `BookListing.ListingDoesNotMatter` | research/src/p5/book.ts:243-253 | The whole run is the same for every order of its candidates, when no two different ones share class, pair and entry time |
| `BookListing.ListingCanMatter` | research/src/p5/book.ts:251-253 | Two candidates that do share them, and two runs that differ only in how these are listed and make different trades |
| `BookEquity.ResultIsListed` | research/src/p5/book.ts:453 | The published trades are the run's, entry times ascending, and names ascending at one time |
| `BookAttempts.AttemptsAreTheGridCandidates` | research/src/p5/book.ts:307-328 | A run that does not throw counts one attempt for every candidate on the quarter-hour grid of the earliest entry and before the end, and no other |
| `BookAttempts.TriedAreTheGridCandidates` | research/src/p5/book.ts:307-345 | The candidates a run tries are, as a multiset, among the listed ones on that grid and before the end, and exactly those when the run does not throw |
| `BookAttempts.RunThrowsExactly` | research/src/p5/book.ts:337-342 | A run throws if and only if some candidate on that grid and before the end has its bar and a usable stop, and stop plus cost are not positive |
| `BookAttempts.EveryoneIsTriedExactly` | research/src/p5/book.ts:307-345 | Every candidate before the end is tried if and only if all of them enter a whole number of quarter-hours after the earliest, and none that cannot be sized is due before another |
| `BookAttempts.OneSecondLate` | research/src/p5/book.ts:307-328 | Of two candidates one second apart only the first is tried |
| `WalkLong.WalkOneTrade` | research/src/p5/walk.ts:48-85 | The one-trade loop returns the first exit forced from the entry bar on, or the end mark |
| `WalkLong.WalkIsFirstEnd` | research/src/p5/walk.ts:48-85 | The walk starts at the first bar of the entry time and ends on the first bar from there on that opens at or under the stop, trades at it, or is the rule's: at the open, at the stop less the slip, or at the open less the spread; with none before the end, at the last close less the spread; with gross, net and fills in full |
| `WalkLong.BookRefinesWalk` | research/src/p5/walk.ts:48-85 | One class B candidate without betas, on positive grid bars: the run throws if and only if its entry bar is reached with a usable stop and stop plus cost are not positive; otherwise it is taken exactly when the walk takes it, and becomes the walk's trade: exit time, raw and fill prices, gross and net; only the label of an end mark may differ |
| `AverageLinkage.ComputeMeanRho` | research/src/p5/risk.ts:90-102 | The mean over all cross pairs, or nothing as soon as one pair has no correlation |
| `LinkageMeans.MeanOfNames` | research/src/p5/risk.ts:90-102 | Between two names the mean is their correlation, or nothing when they have none |
| `LinkageMeans.MeanOfUnion` | research/src/p5/risk.ts:90-102 | On either side, the mean of two lists together times their pairs is the mean of each times its pairs, added; with the row above this fixes every mean |
| `AverageLinkage.FindBest` | research/src/p5/risk.ts:105-121 | The double loop's find is the scan's: a later pair wins only with a higher mean, or an equal one and an earlier label |
| `LinkageMeans.HighestIsPicked` | research/src/p5/risk.ts:105-121 | The pair picked has a mean of 0.80 or more and no pair has a higher one; none is picked only when no pair has 0.80 |
| `AverageLinkage.Cluster` | research/src/p5/risk.ts:88-133 | The loop merges until nothing may merge, and labels what is left, as specified by `Settle` and `Labels` |
| `LinkageMeans.TwoNamesJoin` | research/src/p5/risk.ts:88-133 | Two names end in one cluster if and only if they have a correlation and it is 0.80 or more |
| `LinkageOrder.BestPairIsBest` | research/src/p5/risk.ts:105-121 | What the loops pick is a pair nothing is ahead of among all mergeable pairs, and they pick nothing only when no pair may merge |
| `LinkageOrder.ClusterResult` | research/src/p5/risk.ts:84-87 | Terminates with a partition of the names, each labelled by its cluster's least name, every two names of a cluster correlated, no two clusters still mergeable |
| `LinkageOrder.AnyBestWillDo` | research/src/p5/risk.ts:105-125 | Of several pairs tied for best, merging any one first leads to the same partition |
| `LinkageOrder.SettleAgglomerates` | research/src/p5/risk.ts:104-126 | The run on lists of names ends in the partition that merging sets of names ends in |
| `LinkageOrder.OrderDoesNotMatter` | research/src/p5/risk.ts:84-87 | Neither clusters nor labels depend on the order of the ids, when no name joins with two partners to one label |
| `LinkageExact.OrderFreeExactly` | research/src/p5/risk.ts:113-114 | Clusters are free of the input order, for all correlations, if and only if no name of the set joins with two different partners to one NUL-joined label |
| `LinkageExact.NulFreeNamesAreApart` | research/src/p5/risk.ts:113 | Names without a NUL satisfy that condition |
| `LinkageExact.NamesThatTie` | research/src/p5/risk.ts:113 | Three names with a NUL that do not |
| `LinkageExact.NextInLineWins` | research/src/p5/risk.ts:114-119 | When a name ties with two partners, whichever is listed right after it takes it |
| `SingleLinkage.Forest.Find` | research/src/p5/book.ts:508-514 | Finds the root, terminates because pointers only lead to earlier names, and re-points the path without changing any root |
| `SingleLinkage.Forest.Link` | research/src/p5/book.ts:515-521 | After a link is processed two names share a root exactly when the links so far connect them |
| `SingleLinkage.SingleLinkage` | research/src/p5/book.ts:506-525 | Two ids have one label if and only if they are connected; the label is the least name of the component |
| `SingleLinkage.CompressKeepsRoots` | research/src/p5/book.ts:511-512 | Re-pointing a name at its own root keeps the pointers descending and moves no root |
| `SingleLinkage.RootIsLeast` | research/src/p5/book.ts:505 | A root is connected to its name and earlier than every other name that is |
| `OracleTrades.OracleTrades` | cb/backtest.ts:243-285 | The trades returned each earn more than nothing, buy < sell < next buy, and no such schedule of round trips earns more dollars: the units the notional buys, sold less the taker fee, less the notional and the maker fee |
| `OracleTrades.PnlIsExact` | cb/backtest.ts:225-235 | Entry price times the gain is the notional times exit less taker fee less entry plus maker fee, negative fees counting as none; the gain is zero unless entry, exit and notional are positive |
| `OracleTrades.PaysExactly` | cb/backtest.ts:229-235 | A round trip has a gain if and only if the exit less its fee is above the entry plus its fee |
| `OracleTrades.FillRow` | cb/backtest.ts:255-274 | One row of the table is at least the row before and every profitable trade ending there, and is backed by its predecessor |
| `OracleTrades.RowBounds` | cb/backtest.ts:250-273 | A filled row bounds every schedule that ends by it |
| `OracleTrades.ReadBack` | cb/backtest.ts:275-284 | Following the predecessors yields a schedule whose gains add up to the last row |
| `Decimals.ParseDecimal` | research/src/data/decimal.ts:9-22 | The digit-string code computes the specified reading of the token |
| `Decimals.MatchSound` | research/src/data/decimal.ts:10 | What the pattern accepts is a sign, digits, a fraction and an exponent, printed back exactly |
| `Decimals.MatchRender` | research/src/data/decimal.ts:10 | Every such printing is accepted, and read back as itself |
| `Decimals.ParseIsExact` | research/src/data/decimal.ts:9-22 | The decimal read from a token denotes exactly the rational the token writes |
| `Decimals.FormatDecimal` | research/src/data/decimal.ts:45-59 | The stripping loop and the padding compute the specified text |
| `Decimals.FormatRoundTrip` | research/src/data/decimal.ts:45-59 | Reading back a formatted decimal gives the same rational |
| `Decimals.FormatIsCanonical` | research/src/data/decimal.ts:45-59 | Two decimals format equally if and only if they are equal rationals, if and only if they compare as 0 |
| `Decimals.CompareIsOrder` | research/src/data/decimal.ts:28-35 | Comparison is the order of the rationals |
| `Decimals.AddIsExact` | research/src/data/decimal.ts:37-43 | Addition is addition of the rationals |
| `Decimals.StrippedIsUnique` | research/src/data/decimal.ts:49-52 | Digits and scale are determined by the rational once trailing zeros are stripped |
| `CandleText.Cursor.Number` | research/src/data/candles.ts:95-118 | The cursor reads one number, or fails with the error and at the place specified |
| `CandleText.Cursor.RowOfSix` | research/src/data/candles.ts:130-136 | The cursor reads the six comma-separated cells of one row, or fails as specified |
| `CandleText.Cursor.RowsUntilEnd` | research/src/data/candles.ts:129-144 | The row loop reads rows as long as commas follow, each cell unchanged |
| `CandleText.ParseNumericRows` | research/src/data/candles.ts:84-149 | The shared-cursor parser returns the specified rows or the specified error |
| `CandleText.NumberSound` | research/src/data/candles.ts:95-118 | A lexeme that is read is a JSON number, section 6 of RFC 8259 |
| `CandleText.NumberComplete` | research/src/data/candles.ts:95-118 | Every JSON number followed by something that cannot extend it is read whole |
| `CandleText.ReaderAcceptsPrintings` | research/src/data/candles.ts:84-149 | A text is accepted with given rows if and only if it is a printing of them: six-number arrays in an array, JSON whitespace anywhere between tokens |
| `CandleText.PrintingIsUnambiguous` | research/src/data/candles.ts:84-149 | No text is a printing of two different lists of rows |
| `CandleChunks.MinutesForChunk` | research/src/data/candles.ts:51-82 | One row a bar from start to end, empty where no candle is; off-grid and duplicate candles inside are refused, outside ignored |
| `CandleChunks.RowsTell` | research/src/data/candles.ts:51-82 | Row k is the bar k steps after the start, as long as that is before the end; it is empty if and only if no candle inside the window has its minute, and otherwise carries that candle's numbers |
| `CandleChunks.RefusedExactly` | research/src/data/candles.ts:58-63 | A window is refused if and only if a candle in it is off the grid or has the minute of an earlier one in it, and with the error of the first that does |
| `CandleChunks.SameInsideSameRows` | research/src/data/candles.ts:58-63 | The rows depend only on the candles inside the window, not on their order or on any other candle |
| `CandleChunks.MinutesSplit` | research/src/data/candles.ts:51-82 | A window's rows are its two halves' rows, one after the other; it is refused exactly when a half is |
| `CandleChunks.ChunksForWindow` | research/src/data/time.ts:69-78 | The cursor loop builds the specified chunks |
| `CandleChunks.ChunksPartition` | research/src/data/time.ts:69-78 | Chunks are numbered from the first, adjoin, cover the window exactly and hold at most 299 bars |
| `CandleDownload.PartialStore.WriteChunk` | research/src/data/store.ts:176-189 | All of a chunk's rows and its mark go in, or nothing when a minute or the mark is there already |
| `CandleDownload.PartialStore.ReadMinutes` | research/src/data/store.ts:191-194 | The rows read are the rows stored, each as often, with their minutes ascending |
| `CandleDownload.NextChunkFits` | research/src/data/download.ts:116-154 | The next chunk's rows never clash with the stored ones and extend them to a longer prefix of the month |
| `CandleDownload.Session` | research/src/data/download.ts:111-169 | One session resumes where the store stands; it leaves the rows of a prefix of chunks no shorter than before, or nothing after a 404, and finishing means having the whole month's rows |
| `CandleDownload.FinishMonth` | research/src/data/download.ts:155-160 | With every chunk in, the stored rows are the month's and the row count check never throws |
| `CandleDownload.Resume` | research/src/data/download.ts:95-194 | Over any sequence of stopped and resumed sessions, the first to finish has exactly the rows one call over the whole window gives, and one does unless a 404 closed the pair |
| `FoldHours.FoldHours` | research/src/data/derive.ts:63-91 | The loops return the specified fold; a span that is not a whole number of children gives nothing |
| `FoldHours.SequenceMeans` | research/src/data/derive.ts:77-88 | A bucket's numbers are the first open, the last close, the greatest high, the least low and the sum of the volumes of its bars |
| `FoldHours.FoldIsFold` | research/src/data/derive.ts:56-62 | The fold is exactly the buckets that traded, in order: first open, highest high, lowest low, last close, volumes added |
| `FoldHours.FoldIsUnique` | research/src/data/derive.ts:56-62 | That description has one solution |
| `FoldHours.FoldOfFold` | research/src/data/derive.ts:63-91 | Folding to 1h and then to 4h is folding to 4h at once, for every list of bars and all nested spans |
| `DeriveBars.Aggregate` | research/src/data/derive.ts:108-154 | One bucket: a missing minute throws, empty minutes are counted, the rest is priced |
| `DeriveBars.Settle` | research/src/data/derive.ts:132-153 | The price loop keeps the first open, the highest high and lowest low by decimal comparison, the last close and the decimal sum, and throws on a token that is not a decimal where the code parses it |
| `DeriveBars.DeriveBars` | research/src/data/derive.ts:31-45 | Whole buckets of the window only, from the first aligned start, or the first failure |
| `DeriveFolds.BarsTileWindow` | research/src/data/derive.ts:31-45 | The bars tile the window from the first whole 1h, 4h or 1d on, as many as fit, each counting its 4, 16 or 96 quarter-hours, traded or empty |
| `DeriveFolds.DerivedExactly` | research/src/data/derive.ts:31-45 | A window can be derived if and only if each of its whole buckets has all its quarter-hours, and prices that can be read |
| `DeriveFolds.PricesExist` | research/src/data/derive.ts:132-153 | A bucket is priced if and only if every high, low and volume is a decimal, and the first open and last close are |
| `DeriveFolds.PricesShow` | research/src/data/derive.ts:132-153 | A bar's five texts are the canonical texts of the fold of its rows |
| `DeriveFolds.WideBarsJoinHours` | research/src/data/derive.ts:27-45 | Whenever the hours of a window can be derived so can its 4h and 1d bars, and each equals, text for text and count for count, the join of its hour bars |
| `DeriveKept.KeptBarsAreTheFold` | research/src/data/derive.ts:56-62 | On an aligned window without repeated minutes, the bars that are not empty are `foldHours` of the 15m rows that traded |
| `DeriveKept.KeptHoursFoldToKeptBars` | research/src/data/derive.ts:56-62 | Folding the 1h bars that are not empty gives the 4h or 1d bars that are not |
| `Breakout.Aggregate` | cb/breakout.ts:52-72 | Positive-close candles in time order, grouped by bucket, in key order, without the last bucket |
| `Breakout.GrownAreBuckets` | cb/breakout.ts:278-293 | Building one candle at a time makes the buckets that grouping makes |
| `Breakout.CompletedIsAggregated` | cb/breakout.ts:51-72 | On ordered candles, all but the bucket still being built is what aggregating gives |
| `BreakoutSignal.AtrStaysBetween` | cb/breakout.ts:84-88 | An ATR, once seeded, stays within the span of the true ranges it has seen, for every period from one up |
| `BreakoutSignal.AtrIsExact` | cb/breakout.ts:74-88 | The first ATR is the mean of the first true ranges, each against the close before; then period times the ATR is period - 1 times the last and the new true range |
| `BreakoutSignal.TrueRangeSpans` | cb/breakout.ts:74-78 | The true range is the stretch from the lower of low and previous close to the higher of high and previous close |
| `BreakoutSignal.EmaStaysBetween` | cb/features.ts:75-78 | An EMA stays within the range of the closes it has seen, for every period from one up |
| `BreakoutSignal.EmaIsWeighted` | cb/features.ts:75-78 | The EMA is the closes with weights k(1-k)^n from the newest back, k = 2/(period+1), the first close taking the rest |
| `BreakoutSignal.EmaIsExact` | cb/features.ts:75-78 | Bar after bar, period + 1 times the EMA is twice the new close and period - 1 times the last EMA; the first is the close |
| `BreakoutSignal.SignalTest.OnComplete` | cb/breakout.ts:244-276 | The carried EMA, ATR, seed and highs stay those of all bars seen, the EMA as the weighted closes, and the verdict is the one on those bars |
| `BreakoutSignal.SnapFromFourHour` | cb/poolbook.ts:124-169 | The live loop's EMA, previous EMA, ATR, prior high, known and candidate are those of the bars given; its EMA is the weighted closes |
| `BreakoutSignal.VerdictMeans` | cb/breakout.ts:244-276 | The backtest's verdict is a close above the weighted EMA and above the high of every bar of the look-back, with enough bars for look-back, EMA and ATR, for every whole look-back |
| `BreakoutSignal.RunSignals` | cb/breakout.ts:139-301 | The bars the backtest completes are what aggregating its candles gives, and after each of them the EMA, ATR, prior high and verdict it carries are those of the bars so far, the EMA as the weighted closes, and match the live snapshot of them |
| `BreakoutSignal.UsableExactly` | cb/breakout.ts:140 | The backtest takes exactly the candles with a close, a high and a low above nothing, each as often as it is there |
| `BreakoutSignal.SnapshotMatches` | cb/poolbook.ts:124-169 | On every list of bars the live snapshot has the carried EMA and ATR once enough bars are in; with a look-back of one bar or more it has the carried prior high whenever it knows one, and the same verdict |
| `BreakoutSignal.LiveAgreesWithRun` | cb/poolbook.ts:149-155 | Live and backtest give one verdict on every list of bars, and one prior high whenever it is known |
| `BreakoutSignal.PriorsAgreeExactly` | cb/poolbook.ts:152-153 | For every whole look-back, also a negative one: the two prior highs are equal if and only if the look-back is at least one bar, or zero without an earlier bar, or negative and the one bar that only the live book looks at is missing or not above the rest |
| `BreakoutSignal.VerdictsAgreeExactly` | cb/poolbook.ts:149-155 | For every whole look-back: the two verdicts differ if and only if both sides are ready, the close is above the EMA, and it is not above every earlier high with a look-back of zero, or, with a negative one, above the highs the backtest looks at but not above the one more of the live book |
| `BreakoutSignal.ZeroLookBackDisagrees` | cb/breakout.ts:245-246 | Two bars on which they do differ |
| `BreakoutSignal.NegativeLookBackDisagrees` | cb/poolbook.ts:152-153 | The same two bars, with a look-back of -1, differ the other way round |
| `BreakoutSignal.CompletedStays` | cb/breakout.ts:278-284 | What earlier candles complete is a prefix of what more candles complete |
| `TaxLots.MatchLots` | cb/tax.ts:129-189 | One fill against its pair's book: the loop closes oldest lots first and opens what remains |
| `TaxLots.BuildTax` | cb/tax.ts:121-223 | The fill loop's books, lots, totals and lines are the specified postings; fills without size are skipped |
| `TaxLedger.EveryPairIsKept` | cb/tax.ts:106-109 | After any fills, each pair's open lots are one-sided and add up to its net position; unit for unit, what closed first opened first, at the cost and the time it was opened with; what each closing unit brought or cost is that of its fill; each lot gained its proceeds less its cost and was held from opening to closing; realized is sell cash less buy cash plus open long basis less open short basis; totals count the fills and add their fees |
| `TaxLedger.PairsAreIndependent` | cb/tax.ts:130-190 | A pair's book, lots and totals are those of its own fills alone |
| `TaxLedger.FlipCrossesZero` | cb/tax.ts:138-178 | A fill is marked a flip exactly when it carries the net position across zero |
| `TaxLedger.LinesTell` | cb/tax.ts:207-220 | There is one line a fill with size, in order: what its pair's realized total moved by, and whether it opened with the net position or from flat, closed towards zero, or crossed it |
| `TaxLedger.ClosedInOpeningOrder` | cb/tax.ts:142-176 | For fills in time order, lots close in the order of their opening times |
| `Accounting.Accounting.Apply` | cb/accounting.ts:32-54 | A fill moves position, cost, realized and fees as specified; the three laws below say what that is |
| `Accounting.BuyAddsCost` | cb/accounting.ts:32-39 | A buy adds its size, and its notional and fee to the cost, and realizes nothing; a fill without size changes nothing |
| `Accounting.SellKeepsUnitCost` | cb/accounting.ts:40-53 | A sell closes the smaller of its size and the position; the cost of a unit stays what it was, and realized moves by the net cash of the units closed less the cost that leaves with them |
| `Accounting.FeesAddUp` | cb/accounting.ts:33 | The fees are those of all fills with size |
| `Accounting.Accounting.AddInference` | cb/accounting.ts:56-58 | Inference cost adds up and touches nothing else |
| `Accounting.AccountKeeps` | cb/accounting.ts:5-9 | For any fills, also ones without size: realized less cost is the cash that moved, fees counted once, but for the cash of clamped sells; the position is never negative; an emptied position has no cost |
| `Accounting.EquityIsCashAndPosition` | cb/accounting.ts:69-81 | After any fills, cash is the bankroll plus what moved less the clamped cash and inference; equity is cash plus the position at the mid |
| `Accounting.LedgersDifferByClamped` | cb/tax.ts:106-109 | For any fills, realized less basis on the tax worksheet and realized less basis on the account differ by exactly the clamped cash |
| `Accounting.OversoldRealizedAlike` | cb/accounting.ts:40-42 | After buying one for $100 and selling two for $300 both have realized $50: the $150 clamped is the basis of the tax worksheet's short lot |
| `Accounting.LedgersAgree` | cb/accounting.ts:8-9 | Never oversold, both report one position, one realized less basis, and one realized total whenever the pair is flat |
| `Accounting.PositionsAgreeExactly` | cb/accounting.ts:40-42 | For any fills, the account holds at least the net position, and exactly that if and only if no sell exceeded it |
| `VolumeRing.FeatureAccumulator.OnTrade` | cb/features.ts:195-207 | The arrays, sums and newest second stay those of all trades seen |
| `VolumeRing.FeatureAccumulator.RollVol` | cb/features.ts:294-318 | Rolling forward drains the passed buckets out of the sums, or clears everything after a whole window; never backwards |
| `VolumeWindow.RingIsItsLog` | cb/features.ts:195-207 | For every sequence of trades, of any size and at any time, each bucket is a plain sum over the list, each trade filed under the second its bucket stands for; so is each running sum when no size is below the reset threshold |
| `VolumeWindow.BucketIsPlainExactly` | cb/features.ts:197-206 | For all sizes and times, a bucket is the plain total of its own second if and only if no trade that belongs to another second is filed in it |
| `VolumeWindow.RingIsPlain` | cb/features.ts:294-318 | With every trade on time, each bucket is that of the trades whose own second lies in the window, and each sum too when no size is below the threshold |
| `VolumeWindow.ThresholdExactly` | cb/features.ts:314-315 | A least size guarantees plain sums for all trades on time if and only if it is at least 1e-12 |
| `VolumeWindow.SumIsPlainExactly` | cb/features.ts:197-206 | For sizes from the threshold up, at whatever times, a running sum is the plain window sum if and only if no trade from outside the window is filed in it |
| `VolumeWindow.LateTradeIsCounted` | cb/features.ts:197-206 | A trade 900 seconds late is counted: the sum is 2 where the window holds 1, and so is the bucket |
| `VolumeWindow.DustIsForgotten` | cb/features.ts:314-315 | For every smaller size, two trades on which the sum has lost it |
| `Corrections.HolmAdjusted` | research/src/p5/stats.ts:301-309 | The running maximum of the capped products, row by row in sorted order |
| `Corrections.HolmIsStepDown` | research/src/p5/stats.ts:301-309 | For 0 < alpha <= 1, the adjusted value is below alpha if and only if the strict step-down test rejects the row |
| `Corrections.OrderedRises` | research/src/p5/stats.ts:302-312 | The sorted rows of probabilities rise, which is what the two laws on order below start from |
| `Corrections.HolmRises` | research/src/p5/stats.ts:305-308 | Adjusted values rise along the rows and lie between p and 1 |
| `Corrections.BhAdjusted` | research/src/p5/stats.ts:311-318 | The backward loop leaves in each place the least capped value from there on |
| `Corrections.BhIsStepUp` | research/src/p5/stats.ts:311-318 | For 0 < alpha <= 1, the adjusted value is below alpha if and only if the strict step-up test rejects the row |
| `Corrections.BhRises` | research/src/p5/stats.ts:314-316 | Adjusted values rise along the rows and lie between p and 1 |
| `Corrections.BhWithinHolm` | research/src/p5/stats.ts:301-318 | No Benjamini-Hochberg value exceeds its Holm value |
| `Corrections.InputOrderDoesNotMatter` | research/src/p5/stats.ts:302 | The sorted rows, and so every adjusted value, do not depend on the order of the input |

## Left out

- IEEE rounding, NaN and infinities: arithmetic is exact; a place where the source starts from minus infinity is a missing value here.
- The book's positions are values in the `open` field, replaced by index, instead of records updated in place; no other code holds a reference to them.
- The book's breadth labels, and rule exits given as a bare timestamp (they mean an exit at the open).
- Dates are day numbers and weeks are counted from a Monday, instead of ISO strings.
- The spread is taken above -10,000 bps, so that an entry fill is positive.
- WalkLong.BookRefinesWalk: rule exits at a bar's close have no counterpart in the walk, so the comparison is for exits at the open.
- BookGates.OpenRiskFiresOnlyAfterRunaway: explicit sizing costs below two exit legs, and spreads under -90 bps, under which a single moved stop can already risk more than its entry did (`UncoveredCanExceed`, `NegativeLegCanExceed`).
- BookListing.ListingDoesNotMatter: asks that no two different candidates tie; with a tie the runs can still be equal, for instance when neither candidate has a bar.
- The fee and spread fields that a closed trade copies from constants.
- `olsBeta`, `alignedBeta`, `assignBetas` and the correlation windows that feed the clusterings: plain sums.
- OracleTrades.FillRow: the four arrays of the source are one array of rows with four fields.
- Names are sequences of characters compared by code; surrogate pairs are not modelled.
- Decimals.ParseIsExact: exponents so long that reading them as a number rounds or overflows are read exactly here.
- DeriveBars.Settle: the text of the error that names the offending token; that some token is not a decimal is modelled.
- FoldHours.FoldHours: extra fields that a caller's bars carry along from the first bar of a bucket.
- CandleText.ParseNumericRows: the step from six lexemes to a candle record, which checks the minute stamp, and the wording of errors; their kinds and positions are modelled.
- The month calendar, retries, pacing, concurrency over pairs, the skip of a finished month file and the manifest of the download; what a fetch returns is a parameter.
- BreakoutSignal.RunSignals: the trading around the signal (orders, fills, fees, trail, label veto); a verdict here is the test before `tradable`, an open position and a pending order are looked at.
- BreakoutSignal.VerdictsAgreeExactly: look-backs that are not whole numbers, and EMA and ATR periods that are not whole numbers from one up, although the environment can set them.
- BreakoutSignal.SnapFromFourHour: the rank and the trail of the snapshot.
- TaxLots.BuildTax: the sort of the fills, whose tie-break is locale collation (the fills arrive as the list it loops over); month totals, the final summary and the CSV texts; fills whose numbers are not finite.
- TaxLedger.ClosedInOpeningOrder: stated for fills in time order, which is what the sort provides.
- VolumeWindow.SumIsPlainExactly: sizes below 1e-12, for which the running sums are not the plain ones (`ThresholdExactly`); the buckets are covered for every size.
- The minute and second features of the accumulator.
- The bootstrap, Student t, normal and Sharpe statistics, and the vendored fee table beyond its 90 bps taker constant.
- Sockets, timers, the database, remote models, the web client and the command lines.
