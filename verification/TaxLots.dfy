/** The tax worksheet: fills matched first in, first out against open lots, one book a pair. */
module TaxLots {
  import opened Basics

  /** Sizes are whole units of the smallest tradable amount. */
  datatype Fill = Fill(id: string, tradedAt: int, pair: string, buy: bool, size: int, notional: real, fee: real)

  datatype OpenLot = OpenLot(openedAt: int, long: bool, size: int, basis: real)

  datatype TaxLot = TaxLot(pair: string, openedAt: int, closedAt: int, long: bool, size: int, cost: real,
      proceeds: real, realized: real, holdMs: int)

  datatype Kind = Opening | Closing | Flip

  datatype Line = Line(id: string, pair: string, realized: real, kind: Kind)

  datatype Totals = Totals(fills: nat, fees: real, realized: real, proceeds: real, cost: real)

  datatype Ledger = Ledger(books: map<string, seq<OpenLot>>, lots: seq<TaxLot>, pairs: map<string, Totals>,
      lines: seq<Line>)

  /** The share of some cash that `units` out of `size` stand for. */
  function Share(cash: real, units: int, size: int): real {
    if size == 0 then 0.0 else cash * (units as real / size as real)
  }

  lemma SharesAdd(cash: real, a: int, b: int, size: int)
    requires size != 0
    ensures Share(cash, a, size) + Share(cash, b, size) == Share(cash, a + b, size)
    ensures Share(cash, size, size) == cash && Share(cash, 0, size) == 0.0
  {
    assert a as real / size as real + b as real / size as real == (a + b) as real / size as real;
    assert size as real / size as real == 1.0;
    Distributes(cash, a as real / size as real, b as real / size as real);
  }

  lemma Distributes(x: real, y: real, z: real)
    ensures x * y + x * z == x * (y + z)
  {
  }

  // ----- one fill against one book

  /** What a buy pays, or a sell brings, net of the fee. */
  function CashOf(fill: Fill): real {
    if fill.buy then fill.notional + fill.fee else fill.notional - fill.fee
  }

  function CloseLot(lot: OpenLot, fill: Fill, take: int): TaxLot {
    var basis := Share(lot.basis, take, lot.size);
    var cash := if lot.long then Share(fill.notional - fill.fee, take, fill.size)
      else Share(fill.notional + fill.fee, take, fill.size);
    var proceeds := if lot.long then cash else basis;
    var cost := if lot.long then basis else cash;
    TaxLot(fill.pair, lot.openedAt, fill.tradedAt, lot.long, take, cost, proceeds, proceeds - cost,
        MaxInt(0, fill.tradedAt - lot.openedAt))
  }

  datatype Matched = Matched(book: seq<OpenLot>, remaining: int, closed: seq<TaxLot>)

  /** Oldest lots first, until the fill or the book runs out. */
  function Match(book: seq<OpenLot>, fill: Fill, remaining: int): Matched {
    if remaining <= 0 || book == [] then Matched(book, remaining, [])
    else
      var lot := book[0];
      var take := MinInt(lot.size, remaining);
      var piece := CloseLot(lot, fill, take);
      if lot.size - take <= 0 then
        var rest := Match(book[1..], fill, remaining - take);
        Matched(rest.book, rest.remaining, [piece] + rest.closed)
      else
        Matched([Shrunk(lot, take)] + book[1..], remaining - take, [piece])
  }

  function Shrunk(lot: OpenLot, take: int): OpenLot {
    lot.(size := lot.size - take, basis := lot.basis - Share(lot.basis, take, lot.size))
  }

  function Position(book: seq<OpenLot>): int {
    if book == [] then 0 else (if book[0].long then book[0].size else -book[0].size) + Position(book[1..])
  }

  predicate SameDirection(position: int, buy: bool) {
    position == 0 || (position > 0 <==> buy)
  }

  function Realized(lots: seq<TaxLot>): real {
    if lots == [] then 0.0 else lots[0].realized + Realized(lots[1..])
  }

  function Proceeds(lots: seq<TaxLot>): real {
    if lots == [] then 0.0 else lots[0].proceeds + Proceeds(lots[1..])
  }

  function Cost(lots: seq<TaxLot>): real {
    if lots == [] then 0.0 else lots[0].cost + Cost(lots[1..])
  }

  datatype Filled = Filled(book: seq<OpenLot>, closed: seq<TaxLot>, kind: Kind)

  function MatchFill(book: seq<OpenLot>, fill: Fill): Matched {
    if SameDirection(Position(book), fill.buy) then Matched(book, fill.size, []) else Match(book, fill, fill.size)
  }

  function OpenLots(fill: Fill, remaining: int): seq<OpenLot> {
    if remaining > 0 then [OpenLot(fill.tradedAt, fill.buy, remaining, Share(CashOf(fill), remaining, fill.size))]
    else []
  }

  function FillBook(book: seq<OpenLot>, fill: Fill): Filled {
    var m := MatchFill(book, fill);
    var kind := if SameDirection(Position(book), fill.buy) then Opening else if m.remaining > 0 then Flip else Closing;
    Filled(m.book + OpenLots(fill, m.remaining), m.closed, kind)
  }

  function BookOf(ledger: Ledger, pair: string): seq<OpenLot> {
    if pair in ledger.books then ledger.books[pair] else []
  }

  function TotalsOf(ledger: Ledger, pair: string): Totals {
    if pair in ledger.pairs then ledger.pairs[pair] else Totals(0, 0.0, 0.0, 0.0, 0.0)
  }

  function Add(t: Totals, fill: Fill, closed: seq<TaxLot>): Totals {
    Totals(t.fills + 1, t.fees + fill.fee, t.realized + Realized(closed), t.proceeds + Proceeds(closed),
        t.cost + Cost(closed))
  }

  function Post(ledger: Ledger, fill: Fill): Ledger {
    if fill.size <= 0 then ledger
    else
      var r := FillBook(BookOf(ledger, fill.pair), fill);
      Ledger(
        ledger.books[fill.pair := r.book],
        ledger.lots + r.closed,
        ledger.pairs[fill.pair := Add(TotalsOf(ledger, fill.pair), fill, r.closed)],
        ledger.lines + [Line(fill.id, fill.pair, Realized(r.closed), r.kind)])
  }

  const EMPTY := Ledger(map[], [], map[], [])

  function Posted(fills: seq<Fill>): Ledger {
    if fills == [] then EMPTY else Post(Posted(fills[..|fills| - 1]), fills[|fills| - 1])
  }

  method BuildTax(ordered: seq<Fill>) returns (ledger: Ledger)
    ensures ledger == Posted(ordered)
  {
    hide FillBook, Add;
    ledger := EMPTY;
    for k := 0 to |ordered|
      invariant ledger == Posted(ordered[..k])
    {
      var fill := ordered[k];
      assert ordered[..k + 1][..k] == ordered[..k];
      if fill.size <= 0 {
        continue;
      }
      var book := BookOf(ledger, fill.pair);
      var after, closed, totals, kind := MatchLots(book, fill, TotalsOf(ledger, fill.pair));
      var line := Line(fill.id, fill.pair, Realized(closed), kind);
      ledger := Ledger(ledger.books[fill.pair := after], ledger.lots + closed, ledger.pairs[fill.pair := totals],
          ledger.lines + [line]);
    }
    assert ordered[..|ordered|] == ordered;
  }

  method MatchLots(opening: seq<OpenLot>, fill: Fill, before: Totals)
    returns (book: seq<OpenLot>, lots: seq<TaxLot>, totals: Totals, kind: Kind)
    ensures Filled(book, lots, kind) == FillBook(opening, fill) && totals == Add(before, fill, lots)
  {
    hide CloseLot, Share, Position, Shrunk, Match, AfterPieces, Realized, Cost, Proceeds;
    book, lots, kind := opening, [], Opening;
    var remaining := fill.size;
    var realized, closedCost, closedProceeds := 0.0, 0.0, 0.0;
    MatchedNothing(Match(opening, fill, fill.size));
    if !SameDirection(Position(book), fill.buy) {
      kind := Closing;
      while remaining > 0 && |book| > 0
        invariant Match(opening, fill, fill.size) == AfterPieces(lots, Match(book, fill, remaining))
        invariant realized == Realized(lots) && closedCost == Cost(lots) && closedProceeds == Proceeds(lots)
        decreases |book|, remaining
      {
        var lot := book[0];
        var take := MinInt(lot.size, remaining);
        var piece := CloseLot(lot, fill, take);
        SumsGrow(lots, piece);
        OnePiece(book, fill, remaining);
        realized, closedCost := realized + piece.realized, closedCost + piece.cost;
        closedProceeds := closedProceeds + piece.proceeds;
        lots, remaining := lots + [piece], remaining - take;
        book := (if lot.size - take <= 0 then [] else [Shrunk(lot, take)]) + book[1..];
        PiecesGrow(lots[..|lots| - 1], piece, Match(book, fill, remaining));
      }
      MatchEnds(book, fill, remaining, lots);
      if remaining > 0 {
        kind := Flip;
      }
    }
    if remaining > 0 {
      book := book + [OpenLot(fill.tradedAt, fill.buy, remaining, Share(CashOf(fill), remaining, fill.size))];
    } else {
      assert book + [] == book;
    }
    totals := Totals(
      before.fills + 1, before.fees + fill.fee, before.realized + realized,
      before.proceeds + closedProceeds, before.cost + closedCost);
  }

  function AfterPieces(lots: seq<TaxLot>, rest: Matched): Matched {
    Matched(rest.book, rest.remaining, lots + rest.closed)
  }

  /** One round of the loop: a piece closes, and matching goes on with what is left. */
  lemma OnePiece(book: seq<OpenLot>, fill: Fill, remaining: int)
    requires book != [] && remaining > 0
    ensures var lot, take := book[0], MinInt(book[0].size, remaining);
            var next := (if lot.size - take <= 0 then [] else [Shrunk(lot, take)]) + book[1..];
            Match(book, fill, remaining)
                == AfterPieces([CloseLot(lot, fill, take)], Match(next, fill, remaining - take))
  {
    hide CloseLot, Shrunk;
    assert [] + book[1..] == book[1..];
  }

  lemma MatchEnds(book: seq<OpenLot>, fill: Fill, remaining: int, lots: seq<TaxLot>)
    requires remaining <= 0 || book == []
    ensures AfterPieces(lots, Match(book, fill, remaining)) == Matched(book, remaining, lots)
  {
    assert lots + [] == lots;
  }

  lemma MatchedNothing(rest: Matched)
    ensures AfterPieces([], rest) == rest
    ensures Realized([]) == Cost([]) == Proceeds([]) == 0.0
  {
    assert [] + rest.closed == rest.closed;
  }

  lemma PiecesGrow(lots: seq<TaxLot>, piece: TaxLot, rest: Matched)
    ensures AfterPieces(lots, AfterPieces([piece], rest)) == AfterPieces(lots + [piece], rest)
  {
    assert lots + ([piece] + rest.closed) == (lots + [piece]) + rest.closed;
  }

  lemma {:induction false} SumsGrow(lots: seq<TaxLot>, piece: TaxLot)
    ensures Realized(lots + [piece]) == Realized(lots) + piece.realized
    ensures Cost(lots + [piece]) == Cost(lots) + piece.cost
    ensures Proceeds(lots + [piece]) == Proceeds(lots) + piece.proceeds
  {
    if lots != [] {
      SumsGrow(lots[1..], piece);
      assert (lots + [piece])[1..] == lots[1..] + [piece];
    }
  }
}
