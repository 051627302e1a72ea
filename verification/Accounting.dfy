/** The running account of one pair: weighted-average cost, long or flat. */
module Accounting {
  import opened Basics
  import opened TaxLots
  import opened TaxLedger

  datatype Account = Account(position: int, cost: real, realized: real, fees: real)

  const FRESH := Account(0, 0.0, 0.0, 0.0)

  function Sell(a: Account, f: Fill): Account {
    var size := MinInt(f.size, a.position);
    if size <= 0 then a
    else
      var closedCost := Share(a.cost, size, a.position);
      var left := a.position - size;
      Account(left, if left <= 0 then 0.0 else a.cost - closedCost,
          a.realized + (Share(f.notional - f.fee, size, f.size) - closedCost), a.fees)
  }

  function Applied(a: Account, f: Fill): Account {
    if f.size <= 0 then a
    else
      var paid := a.(fees := a.fees + f.fee);
      if f.buy then paid.(cost := a.cost + (f.notional + f.fee), position := a.position + f.size) else Sell(paid, f)
  }

  function AccountAfter(fills: seq<Fill>): Account {
    if fills == [] then FRESH else Applied(AccountAfter(fills[..|fills| - 1]), fills[|fills| - 1])
  }

  class Accounting {
    const bankrollUsd: real
    var positionBase: int
    var costBasisUsd: real
    var realizedUsd: real
    var feesUsd: real
    var inferenceUsd: real
    ghost var applied: seq<Fill>

    ghost predicate Valid()
      reads this
    {
      Account(positionBase, costBasisUsd, realizedUsd, feesUsd) == AccountAfter(applied)
    }

    constructor (bankrollUsd: real)
      ensures Valid() && applied == [] && this.bankrollUsd == bankrollUsd && inferenceUsd == 0.0
    {
      this.bankrollUsd := bankrollUsd;
      positionBase, costBasisUsd, realizedUsd, feesUsd, inferenceUsd := 0, 0.0, 0.0, 0.0, 0.0;
      applied := [];
    }

    method Apply(f: Fill)
      requires Valid()
      modifies this
      ensures Valid() && applied == old(applied) + [f] && inferenceUsd == old(inferenceUsd)
    {
      hide Share;
      assert (applied + [f])[..|applied|] == applied;
      applied := applied + [f];
      if f.size <= 0 {
        return;
      }
      feesUsd := feesUsd + f.fee;
      if f.buy {
        costBasisUsd := costBasisUsd + (f.notional + f.fee);
        positionBase := positionBase + f.size;
        return;
      }
      var size := MinInt(f.size, positionBase);
      if size <= 0 {
        return;
      }
      var closedCost := Share(costBasisUsd, size, positionBase);
      var proceeds := Share(f.notional - f.fee, size, f.size);
      realizedUsd := realizedUsd + (proceeds - closedCost);
      positionBase := positionBase - size;
      costBasisUsd := costBasisUsd - closedCost;
      if positionBase <= 0 {
        positionBase := 0;
        costBasisUsd := 0.0;
      }
    }

    method AddInference(usd: real)
      requires Valid()
      modifies `inferenceUsd
      ensures Valid() && inferenceUsd == old(inferenceUsd) + usd
    {
      inferenceUsd := inferenceUsd + usd;
    }

    function Unrealized(mid: real): real
      reads this
    {
      if positionBase > 0 then positionBase as real * mid - costBasisUsd else 0.0
    }

    function Equity(mid: real): real
      reads this
    {
      bankrollUsd + realizedUsd + Unrealized(mid) - inferenceUsd
    }

    function CashUsd(): real
      reads this
    {
      bankrollUsd + realizedUsd - inferenceUsd - costBasisUsd
    }
  }

  // ----- what an account keeps

  /** Sells close at most what is held. */
  function Held(fills: seq<Fill>): int {
    if fills == [] then 0
    else
      var held, f := Held(fills[..|fills| - 1]), fills[|fills| - 1];
      if f.size <= 0 then held else if f.buy then held + f.size else held - MinInt(f.size, held)
  }

  /** The cash of sells beyond what was held, which the account leaves out. */
  function Clamped(fills: seq<Fill>): real {
    if fills == [] then 0.0
    else
      var before, f := fills[..|fills| - 1], fills[|fills| - 1];
      Clamped(before) + if f.size <= 0 || f.buy then 0.0
        else Share(f.notional - f.fee, f.size - MinInt(f.size, Held(before)), f.size)
  }

  ghost predicate Balanced(a: Account, held: int, cash: real) {
    a.position == held >= 0 && a.realized - a.cost == cash && (a.position == 0 ==> a.cost == 0.0)
  }

  lemma {:induction false} SellBalances(a: Account, held: int, cash: real, f: Fill)
    requires Balanced(a, held, cash) && f.size > 0
    ensures Balanced(Sell(a, f), held - MinInt(f.size, held),
            cash + (f.notional - f.fee) - Share(f.notional - f.fee, f.size - MinInt(f.size, held), f.size))
  {
    hide Share;
    var size := MinInt(f.size, held);
    SharesAdd(f.notional - f.fee, size, f.size - size, f.size);
    if a.position != 0 {
      SharesAdd(a.cost, 0, a.position, a.position);
    }
  }

  /** What was realized less what the position cost is the cash that moved, but for clamped sells. */
  lemma {:induction false} AccountKeeps(fills: seq<Fill>)
    ensures Balanced(AccountAfter(fills), Held(fills), CashFlow(fills) - Clamped(fills))
  {
    hide Share, Sell;
    if fills != [] {
      var n := |fills| - 1;
      AccountKeeps(fills[..n]);
      var before, f := AccountAfter(fills[..n]), fills[n];
      if f.size > 0 {
        SellBalances(before.(fees := before.fees + f.fee), Held(fills[..n]),
            CashFlow(fills[..n]) - Clamped(fills[..n]), f);
      }
    }
  }

  // ----- weighted-average cost

  /** The fees of all fills with size. */
  function FeesPaid(fills: seq<Fill>): real {
    if fills == [] then 0.0
    else FeesPaid(fills[..|fills| - 1]) + if fills[|fills| - 1].size > 0 then fills[|fills| - 1].fee else 0.0
  }

  lemma {:induction false} FeesAddUp(fills: seq<Fill>)
    ensures AccountAfter(fills).fees == FeesPaid(fills)
  {
    hide Share;
    if fills != [] {
      FeesAddUp(fills[..|fills| - 1]);
    }
  }

  lemma {:induction false} ShareTimes(cash: real, units: int, size: int)
    requires size != 0
    ensures size as real * Share(cash, units, size) == cash * units as real
  {
    QuotientTimes(units as real, size as real);
    Moved(size as real, cash, units as real / size as real);
  }

  lemma Moved(x: real, y: real, z: real)
    ensures x * (y * z) == y * (x * z)
  {
  }

  /** A buy adds what it paid to the cost; a fill without size changes nothing. */
  lemma BuyAddsCost(fills: seq<Fill>, f: Fill)
    ensures var a, b := AccountAfter(fills), AccountAfter(fills + [f]);
            && (f.size <= 0 ==> b == a)
            && (f.size > 0 && f.buy ==>
                  && b.position == a.position + f.size && b.cost == a.cost + f.notional + f.fee
                  && b.realized == a.realized)
  {
    hide Share;
    assert (fills + [f])[..|fills|] == fills;
  }

  /**
   * A sell closes what it can of the position. The cost of a unit stays what it was, and realized
   * moves by the net cash of the units closed less the cost that leaves with them.
   */
  ghost predicate SoldAtAverage(a: Account, b: Account, f: Fill) {
    var closed := a.position - b.position;
    && closed == (if f.size < a.position then f.size else a.position)
    && b.cost * a.position as real == a.cost * b.position as real
    && f.size as real * (b.realized - a.realized + (a.cost - b.cost)) == closed as real * (f.notional - f.fee)
    && (closed == 0 ==> b.cost == a.cost && b.realized == a.realized)
  }

  lemma {:induction false} SellKeepsUnitCost(fills: seq<Fill>, f: Fill)
    requires f.size > 0 && !f.buy
    ensures SoldAtAverage(AccountAfter(fills), AccountAfter(fills + [f]), f)
  {
    hide Share, Sell, SoldAtAverage;
    assert (fills + [f])[..|fills|] == fills;
    AccountKeeps(fills);
    var a := AccountAfter(fills);
    SellByShares(a.(fees := a.fees + f.fee), f);
    FeesDoNotMatter(a, a.fees + f.fee, AccountAfter(fills + [f]), f);
  }

  lemma FeesDoNotMatter(a: Account, fees: real, b: Account, f: Fill)
    ensures SoldAtAverage(a.(fees := fees), b, f) == SoldAtAverage(a, b, f)
  {
  }

  lemma {:induction false} SellByShares(a: Account, f: Fill)
    requires f.size > 0 && a.position >= 0 && (a.position == 0 ==> a.cost == 0.0)
    ensures SoldAtAverage(a, Sell(a, f), f)
  {
    hide Share;
    var closed := MinInt(f.size, a.position);
    if closed > 0 {
      ShareTimes(a.cost, closed, a.position);
      ShareTimes(f.notional - f.fee, closed, f.size);
      SharesAdd(a.cost, closed, a.position - closed, a.position);
      LeftCost(a.cost, Share(a.cost, closed, a.position), a.position as real, closed as real);
    }
  }

  lemma LeftCost(cost: real, gone: real, position: real, closed: real)
    requires position * gone == cost * closed
    ensures (cost - gone) * position == cost * (position - closed)
  {
  }

  /** Spendable cash is the bankroll plus what moved; equity is that cash plus the position at the mid. */
  lemma {:induction false} EquityIsCashAndPosition(account: Accounting, mid: real)
    requires account.Valid()
    ensures account.CashUsd()
            == account.bankrollUsd - account.inferenceUsd + CashFlow(account.applied) - Clamped(account.applied)
    ensures account.Equity(mid) == account.CashUsd() + account.positionBase as real * mid
  {
    hide AccountAfter, CashFlow, Clamped, Held;
    AccountKeeps(account.applied);
    if account.positionBase == 0 {
      assert account.positionBase as real * mid == 0.0;
    }
  }

  // ----- against the tax worksheet

  /** For any fills the two ledgers differ by the clamped cash, realized less basis on each side. */
  lemma {:induction false} LedgersDifferByClamped(fills: seq<Fill>, pair: string)
    ensures var own, tax := OnPair(fills, pair), Project(Posted(fills), pair);
            tax.totals.realized - Basis(tax.book) == AccountAfter(own).realized - AccountAfter(own).cost + Clamped(own)
  {
    hide Posted, AccountAfter, Clamped, CashFlow;
    EveryPairIsKept(fills, pair);
    OnPairOwned(fills, pair);
    AccountKeeps(OnPair(fills, pair));
  }

  /** Not a sell of more than the net position. */
  predicate Covered(fill: Fill, net: int) {
    fill.size <= 0 || fill.buy || fill.size <= net
  }

  ghost predicate NeverOversold(fills: seq<Fill>) {
    forall k :: 0 <= k < |fills| ==> Covered(fills[k], Net(fills[..k]))
  }

  lemma {:induction false} NothingClamped(fills: seq<Fill>)
    requires NeverOversold(fills)
    ensures Clamped(fills) == 0.0 && Held(fills) == Net(fills)
  {
    hide Share, NeverOversold;
    if fills != [] {
      var n := |fills| - 1;
      NeverOversoldNext(fills);
      NothingClamped(fills[..n]);
      if fills[n].size > 0 {
        SharesAdd(fills[n].notional - fills[n].fee, 0, 0, fills[n].size);
      }
    }
  }

  /** Never oversold, the two agree on realized less basis, and on realized whenever the pair is flat. */
  lemma {:induction false} LedgersAgree(fills: seq<Fill>, pair: string)
    requires NeverOversold(OnPair(fills, pair))
    ensures var own, tax := OnPair(fills, pair), Project(Posted(fills), pair);
            && AccountAfter(own).position == Position(tax.book) == Net(own)
            && tax.totals.realized - Basis(tax.book) == AccountAfter(own).realized - AccountAfter(own).cost
            && (Net(own) == 0 ==> tax.book == [] && tax.totals.realized == AccountAfter(own).realized)
  {
    hide Posted, AccountAfter, Clamped, CashFlow, OnPair;
    LedgersDifferByClamped(fills, pair);
    EveryPairIsKept(fills, pair);
    OnPairOwned(fills, pair);
    NothingClamped(OnPair(fills, pair));
    AccountKeeps(OnPair(fills, pair));
    FlatIsEmpty(Project(Posted(fills), pair).book);
  }

  lemma {:induction false} FlatIsEmpty(book: seq<OpenLot>)
    requires OneSided(book, true) || OneSided(book, false)
    ensures book == [] <==> Position(book) == 0
    ensures book == [] ==> Basis(book) == 0.0
  {
    OneSidedPosition(book, if OneSided(book, true) then true else false);
  }

  /** The account holds the net position exactly as long as nothing was oversold; more, forever, once something was. */
  lemma {:induction false} PositionsAgreeExactly(fills: seq<Fill>)
    ensures Held(fills) >= Net(fills)
    ensures Held(fills) == Net(fills) <==> NeverOversold(fills)
  {
    hide NeverOversold;
    if fills == [] {
      NothingOversold();
    } else {
      var n := |fills| - 1;
      PositionsAgreeExactly(fills[..n]);
      NeverOversoldNext(fills);
    }
  }

  lemma NothingOversold()
    ensures NeverOversold([])
  {
  }

  lemma {:induction false} NeverOversoldNext(fills: seq<Fill>)
    requires fills != []
    ensures var n := |fills| - 1;
            NeverOversold(fills) <==> NeverOversold(fills[..n]) && Covered(fills[n], Net(fills[..n]))
  {
    hide Net, Covered;
    var n := |fills| - 1;
    forall k | 0 <= k < n ensures Covered(fills[..n][k], Net(fills[..n][..k])) == Covered(fills[k], Net(fills[..k])) {
      assert fills[..n][..k] == fills[..k];
    }
    if NeverOversold(fills[..n]) && Covered(fills[n], Net(fills[..n])) {
      forall k | 0 <= k < |fills| ensures Covered(fills[k], Net(fills[..k])) {
        assert k < n ==> Covered(fills[..n][k], Net(fills[..n][..k]));
      }
    }
  }

  // ----- oversold by one unit

  const BOUGHT := Fill("a", 0, "P", true, 1, 100.0, 0.0)
  const OVERSOLD := Fill("b", 1, "P", false, 2, 300.0, 0.0)

  lemma {:induction false} OpensFlat(fill: Fill)
    requires fill.size > 0
    ensures FillBook([], fill) == Filled([OpenLot(fill.tradedAt, fill.buy, fill.size, CashOf(fill))], [], Opening)
  {
    hide Share, Match;
    SharesAdd(CashOf(fill), 0, fill.size, fill.size);
    assert Position([]) == 0;
  }

  lemma {:induction false} FlipsOne(lot: OpenLot, fill: Fill)
    requires 0 < lot.size < fill.size && lot.long && !fill.buy
    ensures var left := fill.size - lot.size;
            var flipped := OpenLot(fill.tradedAt, false, left, Share(CashOf(fill), left, fill.size));
            FillBook([lot], fill) == Filled([flipped], [CloseLot(lot, fill, lot.size)], Flip)
  {
    hide Share, CloseLot, CashOf;
    var piece := CloseLot(lot, fill, lot.size);
    assert [lot][1..] == [] && [piece] + [] == [piece];
    assert Position([lot]) == lot.size + Position([]);
    assert Match([], fill, fill.size - lot.size) == Matched([], fill.size - lot.size, []);
    assert Match([lot], fill, fill.size) == Matched([], fill.size - lot.size, [piece]);
  }

  lemma {:induction false} TaxOfOversold()
    ensures PairPosted([BOUGHT, OVERSOLD]).book == [OpenLot(1, false, 1, 150.0)]
    ensures PairPosted([BOUGHT, OVERSOLD]).totals.realized == 50.0
  {
    hide Share, FillBook, PairPosted;
    var lot := OpenLot(0, true, 1, 100.0);
    HalfShare();
    SharesAdd(100.0, 0, 1, 1);
    OpensFlat(BOUGHT);
    FlipsOne(lot, OVERSOLD);
    NothingPostedYet();
    PairPostedNext([], BOUGHT);
    PairPostedNext([BOUGHT], OVERSOLD);
    assert [] + [BOUGHT] == [BOUGHT] && [BOUGHT] + [OVERSOLD] == [BOUGHT, OVERSOLD];
    LotsHead(CloseLot(lot, OVERSOLD, 1), []);
    assert [CloseLot(lot, OVERSOLD, 1)] + [] == [CloseLot(lot, OVERSOLD, 1)];
  }

  lemma NothingPostedYet()
    ensures PairPosted([]) == PairState([], [], Totals(0, 0.0, 0.0, 0.0, 0.0))
  {
  }

  lemma HalfShare()
    ensures Share(300.0, 1, 2) == 150.0
  {
  }

  /** Both have realized $50; what was clamped is the basis of the short lot. */
  lemma {:induction false} OversoldRealizedAlike()
    ensures var tax, account := PairPosted([BOUGHT, OVERSOLD]), AccountAfter([BOUGHT, OVERSOLD]);
            && tax.totals.realized == account.realized == 50.0
            && Clamped([BOUGHT, OVERSOLD]) == -Basis(tax.book) == 150.0 && account.cost == 0.0
  {
    hide Share, PairPosted;
    TaxOfOversold();
    HalfShare();
    SharesAdd(100.0, 0, 1, 1);
    SharesAdd(300.0, 1, 1, 2);
    AccountOfOversold();
    assert Basis([OpenLot(1, false, 1, 150.0)]) == -150.0 by {
      assert [OpenLot(1, false, 1, 150.0)][1..] == [];
    }
  }

  lemma {:induction false} AccountOfBought()
    ensures AccountAfter([BOUGHT]) == Account(1, 100.0, 0.0, 0.0)
    ensures Held([BOUGHT]) == 1 && Clamped([BOUGHT]) == 0.0
  {
    hide Share, Sell;
    assert [BOUGHT][..0] == [];
  }

  lemma {:induction false} AccountOfOversold()
    ensures AccountAfter([BOUGHT, OVERSOLD]) == Account(0, 0.0, 50.0, 0.0) && Clamped([BOUGHT, OVERSOLD]) == 150.0
  {
    hide Share;
    HalfShare();
    SharesAdd(100.0, 0, 1, 1);
    AccountOfBought();
    SellsWhatIsHeld();
    assert [BOUGHT, OVERSOLD][..1] == [BOUGHT];
  }

  lemma {:induction false} SellsWhatIsHeld()
    ensures Sell(Account(1, 100.0, 0.0, 0.0), OVERSOLD) == Account(0, 0.0, 50.0, 0.0)
  {
    hide Share;
    HalfShare();
    SharesAdd(100.0, 0, 1, 1);
  }
}
