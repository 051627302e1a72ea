/** What every posting keeps: one-sided books, first in first out, and cash conserved. */
module TaxLedger {
  import opened Basics
  import opened TaxLots

  // ----- the fills of one pair, and what they add up to

  function OnPair(fills: seq<Fill>, pair: string): seq<Fill> {
    if fills == [] then []
    else
      var f := fills[|fills| - 1];
      OnPair(fills[..|fills| - 1], pair) + if f.pair == pair && f.size > 0 then [f] else []
  }

  function SignedSize(fill: Fill): int {
    if fill.size <= 0 then 0 else if fill.buy then fill.size else -fill.size
  }

  function Net(fills: seq<Fill>): int {
    if fills == [] then 0 else Net(fills[..|fills| - 1]) + SignedSize(fills[|fills| - 1])
  }

  /** Cash in for a sell, or out for a buy, fee included. */
  function CashIn(fill: Fill): real {
    if fill.size <= 0 then 0.0 else if fill.buy then -(fill.notional + fill.fee) else fill.notional - fill.fee
  }

  /** Cash in from sells less cash out for buys. Fills without size are skipped everywhere. */
  function CashFlow(fills: seq<Fill>): real {
    if fills == [] then 0.0 else CashFlow(fills[..|fills| - 1]) + CashIn(fills[|fills| - 1])
  }

  /** Open long basis less open short basis. */
  function Basis(book: seq<OpenLot>): real {
    if book == [] then 0.0 else (if book[0].long then book[0].basis else -book[0].basis) + Basis(book[1..])
  }

  /** One unit as it was opened; `each` is what it cost, or brought when it is short. */
  datatype Piece = Piece(openedAt: int, long: bool, each: real)

  /** One unit as it was closed; `each` is what it brought, or cost when it was short. */
  datatype Settlement = Settlement(closedAt: int, each: real)

  function Each(cash: real, size: int): real {
    if size == 0 then 0.0 else cash / size as real
  }

  function Copies<T>(x: T, count: int): (r: seq<T>)
    ensures |r| == MaxInt(0, count)
  {
    seq(MaxInt(0, count), _ => x)
  }

  /** A lot as so many single units. */
  function LotUnits(lot: OpenLot): seq<Piece> {
    Copies(Piece(lot.openedAt, lot.long, Each(lot.basis, lot.size)), lot.size)
  }

  /** What the units of a closed lot were opened for. */
  function OpenedFor(lot: TaxLot): real {
    if lot.long then lot.cost else lot.proceeds
  }

  function ClosedFor(lot: TaxLot): real {
    if lot.long then lot.proceeds else lot.cost
  }

  function PieceUnits(lot: TaxLot): seq<Piece> {
    Copies(Piece(lot.openedAt, lot.long, Each(OpenedFor(lot), lot.size)), lot.size)
  }

  function PieceSettled(lot: TaxLot): seq<Settlement> {
    Copies(Settlement(lot.closedAt, Each(ClosedFor(lot), lot.size)), lot.size)
  }

  function OpenUnits(book: seq<OpenLot>): seq<Piece> {
    if book == [] then [] else LotUnits(book[0]) + OpenUnits(book[1..])
  }

  function ClosedUnits(lots: seq<TaxLot>): seq<Piece> {
    if lots == [] then [] else PieceUnits(lots[0]) + ClosedUnits(lots[1..])
  }

  function SettledUnits(lots: seq<TaxLot>): seq<Settlement> {
    if lots == [] then [] else PieceSettled(lots[0]) + SettledUnits(lots[1..])
  }

  /** How much of a fill opens, given the net position before it. */
  function Opens(net: int, fill: Fill): int {
    if SameDirection(net, fill.buy) then fill.size else MaxInt(0, fill.size - if net < 0 then -net else net)
  }

  /** Every unit ever opened, in order of opening, told from the net position alone. */
  function OpenedUnits(fills: seq<Fill>): seq<Piece> {
    if fills == [] then []
    else
      var before, f := fills[..|fills| - 1], fills[|fills| - 1];
      OpenedUnits(before) + UnitsOf(f, Opens(Net(before), f))
  }

  /** Units a fill opens: each costs what a unit of it paid, or brings what a unit of it brought, fee included. */
  function UnitsOf(f: Fill, count: int): seq<Piece> {
    Copies(Piece(f.tradedAt, f.buy, PerUnit(f)), count)
  }

  function SettledBy(f: Fill, count: int): seq<Settlement> {
    Copies(Settlement(f.tradedAt, PerUnit(f)), count)
  }

  function PerUnit(f: Fill): real {
    Each(if f.buy then f.notional + f.fee else f.notional - f.fee, f.size)
  }

  /** Every unit ever closed, in order of closing, told from the net position alone. */
  function SettlingUnits(fills: seq<Fill>): seq<Settlement> {
    if fills == [] then []
    else
      var before, f := fills[..|fills| - 1], fills[|fills| - 1];
      SettlingUnits(before) + SettledBy(f, f.size - Opens(Net(before), f))
  }

  function FeesOf(fills: seq<Fill>): real {
    if fills == [] then 0.0 else FeesOf(fills[..|fills| - 1]) + fills[|fills| - 1].fee
  }

  // ----- one fill

  ghost predicate OneSided(book: seq<OpenLot>, long: bool) {
    forall i :: 0 <= i < |book| ==> book[i].size > 0 && book[i].long == long
  }

  lemma {:induction false} OneSidedPosition(book: seq<OpenLot>, long: bool)
    requires OneSided(book, long)
    ensures book != [] ==> if long then Position(book) >= book[0].size else Position(book) <= -book[0].size
    ensures book == [] <==> Position(book) == 0
  {
    if book != [] {
      assert OneSided(book[1..], long);
      OneSidedPosition(book[1..], long);
      assert book[1..] != [] ==> book[1..][0].size > 0;
    }
  }

  ghost predicate AllPositive(lots: seq<TaxLot>, pair: string) {
    forall i :: 0 <= i < |lots| ==> lots[i].size > 0 && lots[i].pair == pair && AddsUp(lots[i])
  }

  /** A lot gained what it brought less what it cost, and was held from its opening to its closing. */
  predicate AddsUp(lot: TaxLot) {
    && lot.realized == lot.proceeds - lot.cost
    && lot.holdMs == if lot.closedAt < lot.openedAt then 0 else lot.closedAt - lot.openedAt
  }

  /** The share of each unit is the share of every unit. */
  lemma ShareEach(cash: real, units: int, size: int)
    requires units > 0 && size > 0
    ensures Each(Share(cash, units, size), units) == Each(cash, size)
  {
    var u, n := units as real, size as real;
    QuotientTimes(cash, n);
    QuotientTimes(u, n);
    assert n * (cash * (u / n)) == cash * (n * (u / n)) == cash * u;
    SameQuotient(cash, u, n, cash * (u / n));
  }

  lemma SameQuotient(cash: real, u: real, n: real, share: real)
    requires u > 0.0 && n > 0.0 && n * share == cash * u
    ensures share / u == cash / n
  {
    QuotientTimes(share, u);
    QuotientTimes(cash, n);
    Commuted(n, u, share / u);
    Commuted(u, n, cash / n);
    assert n * (u * (share / u)) == u * (n * (cash / n));
    assert n * u * (share / u) == n * u * (cash / n);
    ProductPositive(n, u);
    FactorKeepsOrder(n * u, share / u, cash / n);
  }

  lemma Commuted(x: real, y: real, z: real)
    ensures x * (y * z) == x * y * z == y * x * z
  {
  }

  function Paid(fill: Fill, units: int): real {
    if fill.buy then -Share(fill.notional + fill.fee, units, fill.size)
    else Share(fill.notional - fill.fee, units, fill.size)
  }

  /** What matching a fill against a book of the other side does. */
  ghost predicate MatchedWell(book: seq<OpenLot>, fill: Fill, remaining: int, m: Matched) {
    && OneSided(m.book, !fill.buy)
    && 0 <= m.remaining <= remaining
    && (m.remaining > 0 ==> m.book == [])
    && Position(m.book) == Position(book) + (if fill.buy then remaining - m.remaining else m.remaining - remaining)
    && ClosedUnits(m.closed) + OpenUnits(m.book) == OpenUnits(book)
    && SettledUnits(m.closed) == SettledBy(fill, remaining - m.remaining)
    && Realized(m.closed) - Basis(m.book) == Paid(fill, remaining - m.remaining) - Basis(book)
    && AllPositive(m.closed, fill.pair)
  }

  lemma {:induction false} MatchNothing(book: seq<OpenLot>, fill: Fill, remaining: int)
    requires OneSided(book, !fill.buy) && fill.size > 0 && remaining >= 0 && (remaining == 0 || book == [])
    ensures MatchedWell(book, fill, remaining, Match(book, fill, remaining))
  {
    hide Share, OpenUnits, Position, PerUnit;
    SharesAdd(fill.notional + fill.fee, 0, 0, fill.size);
    SharesAdd(fill.notional - fill.fee, 0, 0, fill.size);
    assert [] + OpenUnits(book) == OpenUnits(book);
  }

  lemma {:induction false} CopiesSplit<T>(x: T, a: int, b: int)
    requires a >= 0 && b >= 0
    ensures Copies(x, a + b) == Copies(x, a) + Copies(x, b)
  {
  }

  /** The units of a piece closed off a lot are units of the lot, settled at what a unit of the fill brings or costs. */
  lemma {:induction false} PieceIsShare(lot: OpenLot, fill: Fill, take: int)
    requires 0 < take <= lot.size && fill.size > 0 && lot.long == !fill.buy
    ensures var piece := CloseLot(lot, fill, take);
            && PieceUnits(piece) == Copies(Piece(lot.openedAt, lot.long, Each(lot.basis, lot.size)), take)
            && PieceSettled(piece) == SettledBy(fill, take) && AddsUp(piece) && piece.size == take
            && piece.pair == fill.pair
  {
    hide Share, Each, Copies;
    ShareEach(lot.basis, take, lot.size);
    ShareEach(fill.notional + fill.fee, take, fill.size);
    ShareEach(fill.notional - fill.fee, take, fill.size);
  }

  /** What stays of a lot are its other units. */
  lemma {:induction false} RestIsShare(lot: OpenLot, take: int)
    requires 0 < take < lot.size
    ensures LotUnits(Shrunk(lot, take))
            == Copies(Piece(lot.openedAt, lot.long, Each(lot.basis, lot.size)), lot.size - take)
  {
    hide Share, Each, Copies;
    SharesAdd(lot.basis, take, lot.size - take, lot.size);
    ShareEach(lot.basis, lot.size - take, lot.size);
  }

  lemma {:induction false} BookHead(lot: OpenLot, rest: seq<OpenLot>)
    ensures Position([lot] + rest) == (if lot.long then lot.size else -lot.size) + Position(rest)
    ensures Basis([lot] + rest) == (if lot.long then lot.basis else -lot.basis) + Basis(rest)
    ensures OpenUnits([lot] + rest) == LotUnits(lot) + OpenUnits(rest)
  {
    hide LotUnits;
    assert ([lot] + rest)[1..] == rest;
  }

  lemma {:induction false} LotsHead(piece: TaxLot, rest: seq<TaxLot>)
    ensures Realized([piece] + rest) == piece.realized + Realized(rest)
    ensures ClosedUnits([piece] + rest) == PieceUnits(piece) + ClosedUnits(rest)
    ensures SettledUnits([piece] + rest) == PieceSettled(piece) + SettledUnits(rest)
  {
    hide PieceUnits, PieceSettled;
    assert ([piece] + rest)[1..] == rest;
  }

  lemma {:induction false} MatchWhole(book: seq<OpenLot>, fill: Fill, remaining: int, rest: Matched)
    requires OneSided(book, !fill.buy) && fill.size > 0 && book != [] && book[0].size <= remaining
    requires MatchedWell(book[1..], fill, remaining - book[0].size, rest)
    ensures MatchedWell(book, fill, remaining,
            Matched(rest.book, rest.remaining, [CloseLot(book[0], fill, book[0].size)] + rest.closed))
  {
    hide Share, PieceUnits, PieceSettled, LotUnits, OpenUnits, ClosedUnits, SettledUnits, Position, Basis, Realized,
        PerUnit,
        Copies, AddsUp;
    var lot := book[0];
    var piece, size := CloseLot(lot, fill, lot.size), lot.size;
    assert [lot] + book[1..] == book;
    BookHead(lot, book[1..]);
    LotsHead(piece, rest.closed);
    SharesAdd(lot.basis, 0, size, size);
    SharesAdd(fill.notional + fill.fee, size, remaining - size - rest.remaining, fill.size);
    SharesAdd(fill.notional - fill.fee, size, remaining - size - rest.remaining, fill.size);
    PieceIsShare(lot, fill, size);
    UnitsOfLot(lot);
    CopiesSplit(Settlement(fill.tradedAt, PerUnit(fill)), size, remaining - size - rest.remaining);
    assert (PieceUnits(piece) + ClosedUnits(rest.closed)) + OpenUnits(rest.book)
        == PieceUnits(piece) + (ClosedUnits(rest.closed) + OpenUnits(rest.book));
  }

  lemma UnitsOfLot(lot: OpenLot)
    ensures LotUnits(lot) == Copies(Piece(lot.openedAt, lot.long, Each(lot.basis, lot.size)), lot.size)
  {
  }

  lemma {:induction false} MatchPart(book: seq<OpenLot>, fill: Fill, remaining: int)
    requires OneSided(book, !fill.buy) && fill.size > 0 && book != [] && 0 < remaining < book[0].size
    ensures MatchedWell(book, fill, remaining,
            Matched([Shrunk(book[0], remaining)] + book[1..], 0, [CloseLot(book[0], fill, remaining)]))
  {
    hide Share, PieceUnits, PieceSettled, LotUnits, OpenUnits, ClosedUnits, SettledUnits, Position, Basis, Realized,
        PerUnit,
        Copies, AddsUp;
    var lot, piece := book[0], CloseLot(book[0], fill, remaining);
    assert [lot] + book[1..] == book && [piece] + [] == [piece];
    BookHead(lot, book[1..]);
    BookHead(Shrunk(lot, remaining), book[1..]);
    LotsHead(piece, []);
    NoLots();
    PieceIsShare(lot, fill, remaining);
    PartUnits(book, fill, remaining);
    assert PieceSettled(piece) + [] == PieceSettled(piece);
  }

  lemma NoLots()
    ensures Realized([]) == 0.0 && SettledUnits([]) == [] && ClosedUnits([]) == []
  {
  }

  lemma {:induction false} PartUnits(book: seq<OpenLot>, fill: Fill, take: int)
    requires book != [] && 0 < take < book[0].size && fill.size > 0 && book[0].long == !fill.buy
    ensures ClosedUnits([CloseLot(book[0], fill, take)]) + OpenUnits([Shrunk(book[0], take)] + book[1..])
            == OpenUnits(book)
  {
    hide Share, PieceUnits, LotUnits, Copies, OpenUnits, ClosedUnits;
    var lot, piece := book[0], CloseLot(book[0], fill, take);
    var unit, rest := Piece(lot.openedAt, lot.long, Each(lot.basis, lot.size)), OpenUnits(book[1..]);
    CopiesSplit(unit, take, lot.size - take);
    PieceIsShare(lot, fill, take);
    RestIsShare(lot, take);
    UnitsOfLot(lot);
    assert [lot] + book[1..] == book && [piece] + [] == [piece];
    BookHead(lot, book[1..]);
    BookHead(Shrunk(lot, take), book[1..]);
    LotsHead(piece, []);
    NoLots();
    var first, second := Copies(unit, take), Copies(unit, lot.size - take);
    assert first + [] == first && first + (second + rest) == (first + second) + rest;
  }

  lemma {:induction false} MatchIsRight(book: seq<OpenLot>, fill: Fill, remaining: int)
    requires OneSided(book, !fill.buy) && fill.size > 0 && remaining >= 0
    ensures MatchedWell(book, fill, remaining, Match(book, fill, remaining))
  {
    hide CloseLot, MatchedWell, Shrunk;
    if remaining == 0 || book == [] {
      MatchNothing(book, fill, remaining);
    } else if book[0].size <= remaining {
      MatchIsRight(book[1..], fill, remaining - book[0].size);
      MatchWhole(book, fill, remaining, Match(book[1..], fill, remaining - book[0].size));
    } else {
      MatchPart(book, fill, remaining);
    }
  }

  // ----- a lot appended

  lemma {:induction false} LotAppended(book: seq<OpenLot>, lot: OpenLot)
    ensures Position(book + [lot]) == Position(book) + if lot.long then lot.size else -lot.size
    ensures Basis(book + [lot]) == Basis(book) + if lot.long then lot.basis else -lot.basis
    ensures OpenUnits(book + [lot]) == OpenUnits(book) + LotUnits(lot)
  {
    hide LotUnits, OpenUnits, Position, Basis;
    if book == [] {
      NoBook();
      BookHead(lot, []);
      assert [] + [lot] == [lot] && [lot] + [] == [lot] && LotUnits(lot) + [] == [] + LotUnits(lot);
    } else {
      var first, rest := book[0], book[1..];
      LotAppended(rest, lot);
      BookHead(first, rest);
      BookHead(first, rest + [lot]);
      assert book == [first] + rest && book + [lot] == [first] + (rest + [lot]);
      assert LotUnits(first) + (OpenUnits(rest) + LotUnits(lot)) == (LotUnits(first) + OpenUnits(rest)) + LotUnits(lot);
    }
  }

  lemma NoBook()
    ensures Position([]) == 0 && Basis([]) == 0.0 && OpenUnits([]) == []
  {
  }

  lemma {:induction false} LotsJoined(a: seq<TaxLot>, b: seq<TaxLot>)
    ensures Realized(a + b) == Realized(a) + Realized(b)
    ensures Proceeds(a + b) == Proceeds(a) + Proceeds(b)
    ensures Cost(a + b) == Cost(a) + Cost(b)
  {
    if a == [] {
      assert a + b == b;
    } else {
      LotsJoined(a[1..], b);
      assert (a + b)[1..] == a[1..] + b;
    }
  }

  lemma {:induction false} UnitsJoined(a: seq<TaxLot>, b: seq<TaxLot>)
    ensures ClosedUnits(a + b) == ClosedUnits(a) + ClosedUnits(b)
    ensures SettledUnits(a + b) == SettledUnits(a) + SettledUnits(b)
  {
    hide PieceUnits, PieceSettled, ClosedUnits, SettledUnits;
    if a == [] {
      NoLots();
      assert a + b == b && [] + ClosedUnits(b) == ClosedUnits(b) && [] + SettledUnits(b) == SettledUnits(b);
    } else {
      var rest := a[1..];
      UnitsJoined(rest, b);
      assert a + b == [a[0]] + (rest + b) && a == [a[0]] + rest;
      LotsHead(a[0], rest + b);
      LotsHead(a[0], rest);
      assert PieceUnits(a[0]) + (ClosedUnits(rest) + ClosedUnits(b))
          == (PieceUnits(a[0]) + ClosedUnits(rest)) + ClosedUnits(b);
      assert PieceSettled(a[0]) + (SettledUnits(rest) + SettledUnits(b))
          == (PieceSettled(a[0]) + SettledUnits(rest)) + SettledUnits(b);
    }
  }

  // ----- one pair, fill after fill

  datatype PairState = PairState(book: seq<OpenLot>, closed: seq<TaxLot>, totals: Totals)

  function PairPosted(fills: seq<Fill>): PairState {
    if fills == [] then PairState([], [], Totals(0, 0.0, 0.0, 0.0, 0.0))
    else
      var before, f := PairPosted(fills[..|fills| - 1]), fills[|fills| - 1];
      var r := FillBook(before.book, f);
      PairState(r.book, before.closed + r.closed, Add(before.totals, f, r.closed))
  }

  ghost predicate Kept(s: PairState, fills: seq<Fill>, pair: string) {
    && (OneSided(s.book, true) || OneSided(s.book, false))
    && Position(s.book) == Net(fills)
    && ClosedUnits(s.closed) + OpenUnits(s.book) == OpenedUnits(fills)
    && SettledUnits(s.closed) == SettlingUnits(fills)
    && Realized(s.closed) - Basis(s.book) == CashFlow(fills)
    && AllPositive(s.closed, pair)
    && s.totals.fills == |fills| && s.totals.fees == FeesOf(fills)
    && s.totals.realized == Realized(s.closed)
    && s.totals.proceeds == Proceeds(s.closed)
    && s.totals.cost == Cost(s.closed)
  }

  /** What matching and then opening does to a book of either side. */
  ghost predicate FilledWell(book: seq<OpenLot>, fill: Fill, r: Filled) {
    && (OneSided(r.book, true) || OneSided(r.book, false))
    && Position(r.book) == Position(book) + SignedSize(fill)
    && ClosedUnits(r.closed) + OpenUnits(r.book)
        == OpenUnits(book) + UnitsOf(fill, Opens(Position(book), fill))
    && SettledUnits(r.closed) == SettledBy(fill, fill.size - Opens(Position(book), fill))
    && Realized(r.closed) - Basis(r.book) == CashIn(fill) - Basis(book)
    && AllPositive(r.closed, fill.pair)
  }

  lemma {:induction false} MatchFillIsRight(book: seq<OpenLot>, fill: Fill, long: bool)
    requires OneSided(book, long) && fill.size > 0
    ensures var m := MatchFill(book, fill);
            && OneSided(m.book, if m.remaining > 0 then fill.buy else !fill.buy)
            && m.remaining == Opens(Position(book), fill)
            && Position(m.book) == Position(book) + SignedSize(fill) - (if fill.buy then m.remaining else -m.remaining)
            && ClosedUnits(m.closed) + OpenUnits(m.book) == OpenUnits(book)
            && SettledUnits(m.closed) == SettledBy(fill, fill.size - m.remaining)
            && Realized(m.closed) - Basis(m.book) == Paid(fill, fill.size - m.remaining) - Basis(book)
            && AllPositive(m.closed, fill.pair)
  {
    hide Share, OpenUnits, Match, CloseLot, PerUnit, AddsUp;
    OneSidedPosition(book, long);
    if SameDirection(Position(book), fill.buy) {
      SharesAdd(fill.notional + fill.fee, 0, 0, fill.size);
      SharesAdd(fill.notional - fill.fee, 0, 0, fill.size);
      assert ClosedUnits([]) + OpenUnits(book) == OpenUnits(book);
    } else {
      MatchIsRight(book, fill, fill.size);
      var m := Match(book, fill, fill.size);
      OneSidedPosition(m.book, long);
    }
  }

  lemma {:induction false} FillIsRight(book: seq<OpenLot>, fill: Fill, long: bool)
    requires OneSided(book, long) && fill.size > 0
    ensures FilledWell(book, fill, FillBook(book, fill))
  {
    hide Share, OpenUnits, MatchFill, Position, Basis, UnitsOf, SettledBy, LotUnits, Opens, Realized, ClosedUnits,
        SettledUnits,
        AddsUp;
    MatchFillIsRight(book, fill, long);
    var m := MatchFill(book, fill);
    SharesAdd(fill.notional + fill.fee, fill.size - m.remaining, m.remaining, fill.size);
    SharesAdd(fill.notional - fill.fee, fill.size - m.remaining, m.remaining, fill.size);
    OpensIsNotNegative(Position(book), fill);
    if m.remaining > 0 {
      var lot := OpenLots(fill, m.remaining)[0];
      LotAppended(m.book, lot);
      NewLotUnits(fill, m.remaining);
      assert (ClosedUnits(m.closed) + OpenUnits(m.book)) + UnitsOf(fill, m.remaining)
          == ClosedUnits(m.closed) + (OpenUnits(m.book) + UnitsOf(fill, m.remaining));
    } else {
      assert m.book + [] == m.book;
      NoUnits(fill);
      assert OpenUnits(book) + [] == OpenUnits(book);
    }
  }

  lemma {:induction false} NewLotUnits(fill: Fill, remaining: int)
    requires 0 < remaining <= fill.size
    ensures LotUnits(OpenLots(fill, remaining)[0]) == UnitsOf(fill, remaining)
  {
    hide Share, Each, Copies;
    ShareEach(CashOf(fill), remaining, fill.size);
  }

  lemma NoUnits(fill: Fill)
    ensures UnitsOf(fill, 0) == []
  {
  }

  /** A fill is marked a flip exactly when it carries the net position across zero. */
  lemma {:induction false} FlipCrossesZero(book: seq<OpenLot>, fill: Fill, long: bool)
    requires OneSided(book, long) && fill.size > 0
    ensures var r := FillBook(book, fill);
            r.kind == Flip <==> Position(book) > 0 > Position(r.book) || Position(book) < 0 < Position(r.book)
  {
    hide MatchFill, OpenUnits, Basis, Realized, ClosedUnits, Position;
    MatchFillIsRight(book, fill, long);
    FillIsRight(book, fill, long);
  }

  lemma OpensIsNotNegative(net: int, fill: Fill)
    requires fill.size > 0
    ensures 0 <= Opens(net, fill) <= fill.size
  {
  }

  /** After any fills of a pair. */
  lemma {:induction false} PairIsKept(fills: seq<Fill>, pair: string)
    requires forall i :: 0 <= i < |fills| ==> fills[i].size > 0 && fills[i].pair == pair
    ensures Kept(PairPosted(fills), fills, pair)
  {
    hide Kept, FillBook, Add;
    if fills == [] {
      NothingKept(pair);
    } else {
      var n := |fills| - 1;
      PairIsKept(fills[..n], pair);
      KeptNext(PairPosted(fills[..n]), fills[..n], fills[n], pair);
      assert fills[..n] + [fills[n]] == fills;
    }
  }

  lemma NothingKept(pair: string)
    ensures Kept(PairPosted([]), [], pair)
  {
  }

  lemma {:induction false} KeptNext(s: PairState, fills: seq<Fill>, fill: Fill, pair: string)
    requires Kept(s, fills, pair) && fill.size > 0 && fill.pair == pair
    ensures var r := FillBook(s.book, fill);
            Kept(PairState(r.book, s.closed + r.closed, Add(s.totals, fill, r.closed)), fills + [fill], pair)
  {
    hide FillBook, OneSided, OpenUnits, Position, Basis, UnitsOf, SettledBy, Opens, Realized, ClosedUnits,
        SettledUnits, Cost,
        Proceeds, Net, CashFlow, OpenedUnits, SettlingUnits, AllPositive, FeesOf;
    var r := FillBook(s.book, fill);
    FillIsRight(s.book, fill, if OneSided(s.book, true) then true else false);
    LotsJoined(s.closed, r.closed);
    UnitsJoined(s.closed, r.closed);
    PositiveJoined(s.closed, r.closed, pair);
    OneMoreFill(fills, fill);
    Spliced(ClosedUnits(s.closed), OpenUnits(s.book), OpenedUnits(fills), ClosedUnits(r.closed), OpenUnits(r.book),
        UnitsOf(fill, Opens(Net(fills), fill)));
  }

  lemma OneMoreFill(fills: seq<Fill>, fill: Fill)
    ensures Net(fills + [fill]) == Net(fills) + SignedSize(fill)
    ensures CashFlow(fills + [fill]) == CashFlow(fills) + CashIn(fill)
    ensures OpenedUnits(fills + [fill]) == OpenedUnits(fills) + UnitsOf(fill, Opens(Net(fills), fill))
    ensures SettlingUnits(fills + [fill])
            == SettlingUnits(fills) + SettledBy(fill, fill.size - Opens(Net(fills), fill))
    ensures FeesOf(fills + [fill]) == FeesOf(fills) + fill.fee
  {
    hide UnitsOf, SettledBy, Opens;
    assert (fills + [fill])[..|fills|] == fills;
  }

  lemma PositiveJoined(a: seq<TaxLot>, b: seq<TaxLot>, pair: string)
    requires AllPositive(a, pair) && AllPositive(b, pair)
    ensures AllPositive(a + b, pair)
  {
  }

  lemma Spliced(closed: seq<Piece>, open: seq<Piece>, all: seq<Piece>, newClosed: seq<Piece>, newOpen: seq<Piece>,
      more: seq<Piece>)
    requires closed + open == all && newClosed + newOpen == open + more
    ensures (closed + newClosed) + newOpen == all + more
  {
    assert (closed + newClosed) + newOpen == closed + (newClosed + newOpen);
    assert closed + (open + more) == (closed + open) + more;
  }

  // ----- the ledger, pair by pair

  function LotsOf(lots: seq<TaxLot>, pair: string): seq<TaxLot> {
    if lots == [] then []
    else LotsOf(lots[..|lots| - 1], pair) + if lots[|lots| - 1].pair == pair then [lots[|lots| - 1]] else []
  }

  lemma {:induction false} LotsOfJoin(a: seq<TaxLot>, b: seq<TaxLot>, owner: string, pair: string)
    requires AllPositive(b, owner)
    ensures LotsOf(a + b, pair) == LotsOf(a, pair) + if owner == pair then b else []
  {
    hide LotsOf;
    if b == [] {
      assert a + b == a;
      assert LotsOf(a, pair) + [] == LotsOf(a, pair);
    } else {
      var n := |b| - 1;
      LotsOfJoin(a, b[..n], owner, pair);
      LotsOfSnoc(a + b[..n], b[n], pair);
      assert (a + b[..n]) + [b[n]] == a + b && b[..n] + [b[n]] == b;
      assert (LotsOf(a, pair) + b[..n]) + [b[n]] == LotsOf(a, pair) + b;
      assert (LotsOf(a, pair) + []) + [] == LotsOf(a, pair) + [];
    }
  }

  lemma {:induction false} LotsOfSnoc(lots: seq<TaxLot>, lot: TaxLot, pair: string)
    ensures LotsOf(lots + [lot], pair) == LotsOf(lots, pair) + if lot.pair == pair then [lot] else []
  {
    assert (lots + [lot])[..|lots|] == lots;
  }

  function Project(ledger: Ledger, pair: string): PairState {
    PairState(BookOf(ledger, pair), LotsOf(ledger.lots, pair), TotalsOf(ledger, pair))
  }

  lemma {:induction false} OnPairOwned(fills: seq<Fill>, pair: string)
    ensures forall i ::
            0 <= i < |OnPair(fills, pair)| ==> OnPair(fills, pair)[i].size > 0 && OnPair(fills, pair)[i].pair == pair
  {
    if fills != [] {
      OnPairOwned(fills[..|fills| - 1], pair);
    }
  }

  lemma {:induction false} ProjectNext(ledger: Ledger, f: Fill, pair: string)
    requires f.size > 0 && AllPositive(FillBook(BookOf(ledger, f.pair), f).closed, f.pair)
    ensures var r, own := FillBook(BookOf(ledger, f.pair), f), Project(ledger, pair);
            Project(Post(ledger, f), pair) == if f.pair == pair
              then PairState(r.book, own.closed + r.closed, Add(own.totals, f, r.closed)) else own
  {
    hide FillBook, Add, AllPositive, LotsOf;
    LotsOfJoin(ledger.lots, FillBook(BookOf(ledger, f.pair), f).closed, f.pair, pair);
    assert LotsOf(ledger.lots, pair) + [] == LotsOf(ledger.lots, pair);
  }

  lemma OnPairNext(fills: seq<Fill>, f: Fill, pair: string)
    ensures OnPair(fills + [f], pair) == if f.pair == pair && f.size > 0 then OnPair(fills, pair) + [f]
            else OnPair(fills, pair)
  {
    assert (fills + [f])[..|fills|] == fills;
    assert OnPair(fills, pair) + [] == OnPair(fills, pair);
  }

  lemma {:induction false} PairPostedNext(fills: seq<Fill>, f: Fill)
    ensures var before, r := PairPosted(fills), FillBook(PairPosted(fills).book, f);
            PairPosted(fills + [f]) == PairState(r.book, before.closed + r.closed, Add(before.totals, f, r.closed))
  {
    hide FillBook, Add;
    assert (fills + [f])[..|fills|] == fills;
  }

  /** Each pair's books are its own fills' doing. */
  lemma {:induction false} PairsAreIndependent(fills: seq<Fill>, pair: string)
    ensures Project(Posted(fills), pair) == PairPosted(OnPair(fills, pair))
    decreases |fills|
  {
    hide FillBook, Add, Post, Project, PairPosted, OnPair, AllPositive;
    if fills == [] {
      NothingPosted(pair);
    } else {
      var n := |fills| - 1;
      var f, before := fills[n], Posted(fills[..n]);
      assert fills[..n] + [f] == fills;
      PairsAreIndependent(fills[..n], pair);
      OnPairNext(fills[..n], f, pair);
      if f.size > 0 {
        PairsAreIndependent(fills[..n], f.pair);
        OnPairOwned(fills[..n], f.pair);
        PairIsKept(OnPair(fills[..n], f.pair), f.pair);
        ClosedBelong(fills[..n], f);
        ProjectNext(before, f, pair);
        PairPostedNext(OnPair(fills[..n], pair), f);
        ProjectBook(before, f.pair);
      } else {
        PostsNothing(before, f);
      }
    }
  }

  lemma NothingPosted(pair: string)
    ensures Project(Posted([]), pair) == PairPosted(OnPair([], pair))
  {
  }

  lemma ProjectBook(ledger: Ledger, pair: string)
    ensures Project(ledger, pair).book == BookOf(ledger, pair)
  {
  }

  lemma PostsNothing(ledger: Ledger, f: Fill)
    requires f.size <= 0
    ensures Post(ledger, f) == ledger
  {
  }

  lemma {:induction false} ClosedBelong(fills: seq<Fill>, fill: Fill)
    requires fill.size > 0
    requires Kept(Project(Posted(fills), fill.pair), OnPair(fills, fill.pair), fill.pair)
    ensures AllPositive(FillBook(BookOf(Posted(fills), fill.pair), fill).closed, fill.pair)
  {
    hide FillBook, OneSided, Posted;
    var book := BookOf(Posted(fills), fill.pair);
    FillIsRight(book, fill, if OneSided(book, true) then true else false);
  }

  /**
   * After any fills, for every pair: its open lots are all on one side and add up to its net position;
   * units close in exactly the order they opened; and what was realized is the cash that came in,
   * less the cash that went out, plus the open long basis, less the open short basis.
   */
  lemma {:induction false} EveryPairIsKept(fills: seq<Fill>, pair: string)
    ensures Kept(Project(Posted(fills), pair), OnPair(fills, pair), pair)
  {
    hide Kept, Project, Posted, OnPair;
    PairsAreIndependent(fills, pair);
    OnPairOwned(fills, pair);
    PairIsKept(OnPair(fills, pair), pair);
  }

  // ----- the lines

  /** From the net position before a fill: towards it or from flat, across zero, or back towards zero. */
  function KindFrom(net: int, fill: Fill): Kind {
    var next := net + SignedSize(fill);
    if net == 0 || (net > 0) == fill.buy then Opening
    else if (net > 0 && next < 0) || (net < 0 && next > 0) then Flip
    else Closing
  }

  /** One line a fill with size: what its pair's realized total moved by, and its kind. */
  ghost function LinesOf(fills: seq<Fill>): seq<Line> {
    if fills == [] then []
    else
      var before, f := fills[..|fills| - 1], fills[|fills| - 1];
      LinesOf(before) +
      if f.size <= 0 then []
      else [Line(f.id, f.pair,
              TotalsOf(Posted(fills), f.pair).realized - TotalsOf(Posted(before), f.pair).realized,
              KindFrom(Net(OnPair(before, f.pair)), f))]
  }

  /** The lines are those, in the order of the fills. */
  lemma {:induction false} LinesTell(fills: seq<Fill>)
    ensures Posted(fills).lines == LinesOf(fills)
  {
    hide FillBook, Realized, KindFrom, OnPair, Net, OneSided;
    if fills != [] {
      var n := |fills| - 1;
      var f := fills[n];
      LinesTell(fills[..n]);
      if f.size > 0 {
        EveryPairIsKept(fills[..n], f.pair);
        KindIsKnown(fills[..n], f);
        OneLine(Posted(fills[..n]), f);
      }
    }
  }

  lemma OneLine(ledger: Ledger, f: Fill)
    requires f.size > 0
    ensures var r := FillBook(BookOf(ledger, f.pair), f);
            && Post(ledger, f).lines == ledger.lines + [Line(f.id, f.pair, Realized(r.closed), r.kind)]
            && TotalsOf(Post(ledger, f), f.pair).realized == TotalsOf(ledger, f.pair).realized + Realized(r.closed)
  {
    hide FillBook, Realized;
  }

  lemma {:induction false} KindIsKnown(fills: seq<Fill>, f: Fill)
    requires f.size > 0
    ensures FillBook(BookOf(Posted(fills), f.pair), f).kind == KindFrom(Net(OnPair(fills, f.pair)), f)
  {
    hide Posted, OnPair, Net, MatchFill, OpenUnits, ClosedUnits, SettledUnits, Realized, Basis, Position, OpenedUnits,
        SettlingUnits, AllPositive;
    EveryPairIsKept(fills, f.pair);
    var book := BookOf(Posted(fills), f.pair);
    ProjectBook(Posted(fills), f.pair);
    MatchFillIsRight(book, f, if OneSided(book, true) then true else false);
  }

  // ----- in time order

  ghost predicate InTime(fills: seq<Fill>) {
    forall i, j :: 0 <= i < j < |fills| ==> fills[i].tradedAt <= fills[j].tradedAt
  }

  ghost predicate Aging(pieces: seq<Piece>) {
    forall i, j :: 0 <= i < j < |pieces| ==> pieces[i].openedAt <= pieces[j].openedAt
  }

  ghost predicate AllBy(pieces: seq<Piece>, time: int) {
    forall i :: 0 <= i < |pieces| ==> pieces[i].openedAt <= time
  }

  lemma {:induction false} OpenedUnitsAge(fills: seq<Fill>)
    requires InTime(fills)
    ensures Aging(OpenedUnits(fills))
    ensures fills != [] ==> AllBy(OpenedUnits(fills), fills[|fills| - 1].tradedAt)
  {
    if fills != [] {
      var n := |fills| - 1;
      OpenedUnitsAge(fills[..n]);
    }
  }

  lemma {:induction false} OnPairInTime(fills: seq<Fill>, pair: string)
    requires InTime(fills)
    ensures InTime(OnPair(fills, pair))
    ensures fills != []
       ==> forall i :: 0 <= i < |OnPair(fills, pair)| ==> OnPair(fills, pair)[i].tradedAt <= fills[|fills| - 1].tradedAt
  {
    if fills != [] {
      var n := |fills| - 1;
      OnPairInTime(fills[..n], pair);
      assert n > 0 ==> fills[n - 1].tradedAt <= fills[n].tradedAt;
    }
  }

  ghost predicate InOpeningOrder(lots: seq<TaxLot>) {
    forall i, j :: 0 <= i < j < |lots| ==> lots[i].openedAt <= lots[j].openedAt
  }

  /** Each lot of positive size shows among the units. */
  lemma {:induction false} LotShows(lots: seq<TaxLot>, pair: string, i: nat) returns (at: nat)
    requires AllPositive(lots, pair) && i < |lots|
    ensures at < |ClosedUnits(lots)| && ClosedUnits(lots)[at].openedAt == lots[i].openedAt
    ensures i > 0 ==> at >= lots[0].size
  {
    if i == 0 {
      at := 0;
    } else {
      var k := LotShows(lots[1..], pair, i - 1);
      at := lots[0].size + k;
    }
  }

  lemma {:induction false} AgingUnitsAgingLots(lots: seq<TaxLot>, pair: string)
    requires AllPositive(lots, pair) && Aging(ClosedUnits(lots))
    ensures InOpeningOrder(lots)
  {
    if lots != [] {
      var first := PieceUnits(lots[0]);
      assert ClosedUnits(lots)[|first|..] == ClosedUnits(lots[1..]);
      AgingTail(ClosedUnits(lots), |first|);
      AgingUnitsAgingLots(lots[1..], pair);
      forall j | 0 < j < |lots| ensures lots[0].openedAt <= lots[j].openedAt {
        var at := LotShows(lots, pair, j);
        assert ClosedUnits(lots)[0] == first[0];
      }
      forall i, j | 0 <= i < j < |lots| ensures lots[i].openedAt <= lots[j].openedAt {
        if i > 0 {
          assert lots[1..][i - 1].openedAt <= lots[1..][j - 1].openedAt;
        }
      }
    }
  }

  lemma AgingTail(pieces: seq<Piece>, k: nat)
    requires Aging(pieces) && k <= |pieces|
    ensures Aging(pieces[k..]) && Aging(pieces[..k])
  {
  }

  /** Fills in time order close lots in the order they were opened. */
  lemma {:induction false} ClosedInOpeningOrder(fills: seq<Fill>, pair: string)
    requires InTime(fills)
    ensures InOpeningOrder(LotsOf(Posted(fills).lots, pair))
  {
    hide Posted, OnPair, OpenedUnits, ClosedUnits, OpenUnits, Aging;
    var own, s := OnPair(fills, pair), Project(Posted(fills), pair);
    EveryPairIsKept(fills, pair);
    OnPairInTime(fills, pair);
    OpenedUnitsAge(own);
    AgingTail(OpenedUnits(own), |ClosedUnits(s.closed)|);
    assert OpenedUnits(own)[..|ClosedUnits(s.closed)|] == ClosedUnits(s.closed);
    AgingUnitsAgingLots(s.closed, pair);
  }
}
