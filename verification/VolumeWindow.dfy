/** The ring against the plain list of trades: what each bucket and each running sum hold after any run. */
module VolumeWindow {
  import opened Basics
  import opened VolumeRing

  /** A trade of one side as the ring files it: its own second, and the second its bucket stands for. */
  datatype Entry = Entry(sec: int, at: int, size: real)

  predicate Live(at: int, newest: int) {
    newest - WINDOW < at <= newest
  }

  /** The bucket's total, from the plain list of entries. */
  ghost function Slot(log: seq<Entry>, newest: int, i: int): real {
    if log == [] then 0.0
    else
      var e := log[|log| - 1];
      Slot(log[..|log| - 1], newest, i) + if Live(e.at, newest) && e.at % WINDOW == i then e.size else 0.0
  }

  /** The window's total, from the plain list of entries. */
  ghost function Total(log: seq<Entry>, newest: int): real {
    if log == [] then 0.0
    else
      var e := log[|log| - 1];
      Total(log[..|log| - 1], newest) + if Live(e.at, newest) then e.size else 0.0
  }

  ghost predicate FiledBy(log: seq<Entry>, newest: int) {
    forall k :: 0 <= k < |log| ==> log[k].at <= newest
  }

  ghost predicate AllLive(log: seq<Entry>, newest: int) {
    forall k :: 0 <= k < |log| ==> Live(log[k].at, newest)
  }

  /** No entry is smaller than the threshold below which a sum is reset. */
  ghost predicate AllBig(log: seq<Entry>) {
    forall k :: 0 <= k < |log| ==> log[k].size >= DUST
  }

  ghost predicate BucketsHold(side: Side, log: seq<Entry>, newest: int) {
    Shaped(side) && forall i :: 0 <= i < WINDOW ==> side.buckets[i] == Slot(log, newest, i)
  }

  /** The buckets always; the sum as long as nothing was small enough to be forgotten. */
  ghost predicate Holds(side: Side, log: seq<Entry>, newest: int) {
    BucketsHold(side, log, newest) && (AllBig(log) ==> side.sum == Total(log, newest))
  }

  // ----- rolling forward

  lemma LeavesItsBucket(at: int, newest: int)
    requires at <= newest
    ensures Live(at, newest + 1) <==> Live(at, newest) && at % WINDOW != (newest + 1) % WINDOW
  {
    if Live(at, newest) {
      assert 0 < newest + 1 - at <= WINDOW;
    }
  }

  /** A second passes: the bucket it takes over gives up what it held. */
  lemma {:induction false} SecondPasses(log: seq<Entry>, newest: int, i: int)
    requires FiledBy(log, newest) && 0 <= i < WINDOW
    ensures Slot(log, newest + 1, i) == if i == (newest + 1) % WINDOW then 0.0 else Slot(log, newest, i)
    ensures Total(log, newest + 1) == Total(log, newest) - Slot(log, newest, (newest + 1) % WINDOW)
  {
    hide Live;
    if log != [] {
      var n := |log| - 1;
      SecondPasses(log[..n], newest, i);
      LeavesItsBucket(log[n].at, newest);
    }
  }

  lemma {:induction false} Drained(side: Side, log: seq<Entry>, newest: int, k: nat)
    requires BucketsHold(side, log, newest) && FiledBy(log, newest)
    ensures BucketsHold(Drain(side, newest, k), log, newest + k)
    ensures Drain(side, newest, k).sum - side.sum == Total(log, newest + k) - Total(log, newest)
  {
    hide Slot, Total;
    if k > 0 {
      var last, next := newest + k - 1, newest + k;
      Drained(side, log, newest, k - 1);
      forall i | 0 <= i < WINDOW ensures Slot(log, next, i) == if i == next % WINDOW then 0.0 else Slot(log, last, i) {
        SecondPasses(log, last, i);
      }
      SecondPasses(log, last, next % WINDOW);
    }
  }

  /** A window total is nothing, or at least one smallest size. */
  lemma {:induction false} TotalIsNotDust(log: seq<Entry>, newest: int)
    requires AllBig(log)
    ensures Total(log, newest) == 0.0 || Total(log, newest) >= DUST
  {
    hide Live;
    if log != [] {
      TotalIsNotDust(log[..|log| - 1], newest);
    }
  }

  lemma {:induction false} LongGapEmpties(log: seq<Entry>, newest: int, sec: int, i: int)
    requires FiledBy(log, newest) && sec - newest >= WINDOW
    ensures Slot(log, sec, i) == 0.0 && Total(log, sec) == 0.0
  {
    if log != [] {
      LongGapEmpties(log[..|log| - 1], newest, sec, i);
    }
  }

  lemma {:induction false} RollHolds(side: Side, log: seq<Entry>, newest: int, sec: int)
    requires Holds(side, log, newest) && FiledBy(log, newest) && newest >= 0
    ensures Holds(RollSide(side, newest, sec), log, RollSec(newest, sec))
  {
    hide Drain, Slot, Total, Live;
    if newest < sec < newest + WINDOW {
      Drained(side, log, newest, sec - newest);
      if AllBig(log) {
        TotalIsNotDust(log, sec);
      }
    } else if sec >= newest + WINDOW {
      forall i | 0 <= i < WINDOW ensures Slot(log, sec, i) == 0.0 {
        LongGapEmpties(log, newest, sec, i);
      }
      LongGapEmpties(log, newest, sec, 0);
    }
  }

  // ----- filing

  /** The second a bucket stands for: the newest one not after `newest` on the same slot. */
  function Filing(sec: int, newest: int): int {
    newest - (newest - sec) % WINDOW
  }

  lemma FilingIsLive(sec: int, newest: int)
    ensures Live(Filing(sec, newest), newest) && Filing(sec, newest) % WINDOW == sec % WINDOW
    ensures Live(sec, newest) <==> Filing(sec, newest) == sec
  {
  }

  /** Before the first second from the epoch on, nothing is drained: entries only come to stand for other seconds. */
  function Refiled(log: seq<Entry>, newest: int): (r: seq<Entry>)
    ensures |r| == |log|
  {
    if log == [] then []
    else
      var n := |log| - 1;
      Refiled(log[..n], newest) + [log[n].(at := Filing(log[n].at, newest))]
  }

  lemma {:induction false} RefiledKeeps(log: seq<Entry>, newest: int, next: int, i: int)
    requires AllLive(log, newest)
    ensures AllLive(Refiled(log, next), next) && (AllBig(Refiled(log, next)) <==> AllBig(log))
    ensures Slot(Refiled(log, next), next, i) == Slot(log, newest, i)
    ensures Total(Refiled(log, next), next) == Total(log, newest)
  {
    hide Live, Slot, Total, Refiled;
    RefiledAt(log, next);
    RefiledAdds(log, newest, next, i);
  }

  lemma {:induction false} RefiledAt(log: seq<Entry>, next: int)
    ensures forall k :: 0 <= k < |log| ==> Refiled(log, next)[k] == log[k].(at := Filing(log[k].at, next))
    ensures AllLive(Refiled(log, next), next)
  {
    hide Filing, Live;
    if log != [] {
      RefiledAt(log[..|log| - 1], next);
      FilingIsLive(log[|log| - 1].at, next);
    }
  }

  lemma {:induction false} RefiledAdds(log: seq<Entry>, newest: int, next: int, i: int)
    requires AllLive(log, newest)
    ensures Slot(Refiled(log, next), next, i) == Slot(log, newest, i)
    ensures Total(Refiled(log, next), next) == Total(log, newest)
  {
    hide Filing, Live;
    if log != [] {
      var n := |log| - 1;
      RefiledAdds(log[..n], newest, next, i);
      FilingIsLive(log[n].at, next);
      assert Refiled(log, next)[..n] == Refiled(log[..n], next);
    }
  }

  function RollLog(log: seq<Entry>, newest: int, sec: int): seq<Entry> {
    if newest < 0 then Refiled(log, sec) else log
  }

  /** What rolling keeps, before the epoch and after. */
  ghost predicate Tracked(log: seq<Entry>, newest: int) {
    FiledBy(log, newest) && (newest < 0 ==> AllLive(log, newest))
  }

  lemma {:induction false} AnyRollHolds(side: Side, log: seq<Entry>, newest: int, sec: int)
    requires Holds(side, log, newest) && Tracked(log, newest)
    ensures Holds(RollSide(side, newest, sec), RollLog(log, newest, sec), RollSec(newest, sec))
    ensures Tracked(RollLog(log, newest, sec), RollSec(newest, sec))
  {
    hide Slot, Total, Drain;
    if newest >= 0 {
      RollHolds(side, log, newest, sec);
    } else {
      forall i ensures Slot(Refiled(log, sec), sec, i) == Slot(log, newest, i) {
        RefiledKeeps(log, newest, sec, i);
      }
      RefiledKeeps(log, newest, sec, 0);
    }
  }

  lemma {:induction false} AddHolds(side: Side, log: seq<Entry>, newest: int, sec: int, size: real)
    requires Holds(side, log, newest)
    ensures Holds(AddTo(side, sec, size), log + [Entry(sec, Filing(sec, newest), size)], newest)
  {
    hide Filing, Live;
    FilingIsLive(sec, newest);
    var more := log + [Entry(sec, Filing(sec, newest), size)];
    assert more[..|log|] == log;
    assert AllBig(more) ==> forall k :: 0 <= k < |log| ==> more[k] == log[k];
  }

  // ----- over every run of trades

  predicate Counts(t: Trade) {
    t.size > 0.0
  }

  function Newest(trades: seq<Trade>): int {
    if trades == [] then -1
    else
      var t := trades[|trades| - 1];
      var before := Newest(trades[..|trades| - 1]);
      if Counts(t) then RollSec(before, SecOf(t)) else before
  }

  function Log(trades: seq<Trade>, buy: bool): seq<Entry> {
    if trades == [] then []
    else
      var n := |trades| - 1;
      NextLog(Log(trades[..n], buy), Newest(trades[..n]), trades[n], buy)
  }

  function NextLog(log: seq<Entry>, newest: int, t: Trade, buy: bool): seq<Entry> {
    if !Counts(t) then log
    else
      var sec := SecOf(t);
      var rolled := RollLog(log, newest, sec);
      if t.buy == buy then rolled + [Entry(sec, Filing(sec, RollSec(newest, sec)), t.size)] else rolled
  }

  function OfSide(ring: Ring, buy: bool): Side {
    if buy then ring.buy else ring.sell
  }

  lemma {:induction false} OneTrade(ring: Ring, t: Trade, buy: bool, log: seq<Entry>)
    requires Shaped(ring.buy) && Shaped(ring.sell)
    requires Holds(OfSide(ring, buy), log, ring.volSec) && Tracked(log, ring.volSec)
    ensures var newest := if Counts(t) then RollSec(ring.volSec, SecOf(t)) else ring.volSec;
            var next := NextLog(log, ring.volSec, t, buy);
            && OnTrade(ring, t).volSec == newest
            && Holds(OfSide(OnTrade(ring, t), buy), next, newest) && Tracked(next, newest)
  {
    hide RollSide, AddTo, Filing, Holds, RollLog, RollSec;
    if Counts(t) {
      var sec := SecOf(t);
      var newest := RollSec(ring.volSec, sec);
      AnyRollHolds(OfSide(ring, buy), log, ring.volSec, sec);
      AddHolds(RollSide(OfSide(ring, buy), ring.volSec, sec), RollLog(log, ring.volSec, sec), newest, sec, t.size);
      FilingIsLive(sec, newest);
    }
  }

  /**
   * Whatever trades came, at whatever times: each bucket is the total of the entries filed in it,
   * and each running sum is the total of the window unless a size was under the threshold.
   */
  lemma {:induction false} RingIsItsLog(trades: seq<Trade>, buy: bool)
    ensures After(trades).volSec == Newest(trades)
    ensures Holds(OfSide(After(trades), buy), Log(trades, buy), Newest(trades))
    ensures Tracked(Log(trades, buy), Newest(trades))
  {
    hide OnTrade, NextLog, Holds, Tracked, RollSec;
    if trades == [] {
      NothingHeld(buy);
    } else {
      var n := |trades| - 1;
      RingIsItsLog(trades[..n], buy);
      OneTrade(After(trades[..n]), trades[n], buy, Log(trades[..n], buy));
    }
  }

  lemma NothingHeld(buy: bool)
    ensures Holds(OfSide(START, buy), [], -1) && Tracked([], -1)
  {
  }

  // ----- against the trades' own seconds

  /** The window by each trade's own second. */
  function Plain(trades: seq<Trade>, buy: bool, newest: int): real {
    if trades == [] then 0.0
    else
      var t := trades[|trades| - 1];
      Plain(trades[..|trades| - 1], buy, newest)
      + if Counts(t) && t.buy == buy && Live(SecOf(t), newest) then t.size else 0.0
  }

  function PlainSlot(trades: seq<Trade>, buy: bool, newest: int, i: int): real {
    if trades == [] then 0.0
    else
      var t := trades[|trades| - 1];
      PlainSlot(trades[..|trades| - 1], buy, newest, i)
      + if Counts(t) && t.buy == buy && Live(SecOf(t), newest) && SecOf(t) % WINDOW == i then t.size else 0.0
  }

  /** The same sums, by the entries' own seconds. */
  ghost function Own(log: seq<Entry>, newest: int): real {
    if log == [] then 0.0
    else
      var e := log[|log| - 1];
      Own(log[..|log| - 1], newest) + if Live(e.sec, newest) then e.size else 0.0
  }

  ghost function OwnSlot(log: seq<Entry>, newest: int, i: int): real {
    if log == [] then 0.0
    else
      var e := log[|log| - 1];
      OwnSlot(log[..|log| - 1], newest, i) + if Live(e.sec, newest) && e.sec % WINDOW == i then e.size else 0.0
  }

  lemma {:induction false} RefiledOwns(log: seq<Entry>, next: int, newest: int, i: int)
    ensures Own(Refiled(log, next), newest) == Own(log, newest)
    ensures OwnSlot(Refiled(log, next), newest, i) == OwnSlot(log, newest, i)
  {
    hide Filing, Live;
    if log != [] {
      var n := |log| - 1;
      RefiledOwns(log[..n], next, newest, i);
      assert Refiled(log, next)[..n] == Refiled(log[..n], next);
    }
  }

  lemma {:induction false} OwnOfOneMore(log: seq<Entry>, e: Entry, newest: int, i: int)
    ensures Own(log + [e], newest) == Own(log, newest) + if Live(e.sec, newest) then e.size else 0.0
    ensures OwnSlot(log + [e], newest, i) == OwnSlot(log, newest, i) + if Live(e.sec, newest) && e.sec % WINDOW == i
            then e.size else 0.0
  {
    hide Live;
    assert (log + [e])[..|log|] == log;
  }

  /** The log leaves out no trade and invents none. */
  lemma {:induction false} PlainIsOwn(trades: seq<Trade>, buy: bool, newest: int, i: int)
    ensures Own(Log(trades, buy), newest) == Plain(trades, buy, newest)
    ensures OwnSlot(Log(trades, buy), newest, i) == PlainSlot(trades, buy, newest, i)
  {
    hide Filing, Live, Own, OwnSlot, Newest, RollSec;
    if trades == [] {
      NothingOwned(newest, i);
    } else {
      var n := |trades| - 1;
      var t, log, last := trades[n], Log(trades[..n], buy), Newest(trades[..n]);
      PlainIsOwn(trades[..n], buy, newest, i);
      RefiledOwns(log, SecOf(t), newest, i);
      OwnOfOneMore(RollLog(log, last, SecOf(t)), Entry(SecOf(t), Filing(SecOf(t), RollSec(last, SecOf(t))), t.size),
          newest, i);
    }
  }

  lemma NothingOwned(newest: int, i: int)
    ensures Own([], newest) == 0.0 && OwnSlot([], newest, i) == 0.0
  {
  }

  /** An entry whose own second is in the window is filed under it. */
  ghost predicate WellFiled(e: Entry, newest: int) {
    && e.at % WINDOW == e.sec % WINDOW
    && (Live(e.sec, newest) ==> e.at == e.sec)
    && (if newest < 0 then e.sec < 0 else e.sec <= newest)
    && e.size > 0.0
  }

  ghost predicate AllWellFiled(log: seq<Entry>, newest: int) {
    forall k :: 0 <= k < |log| ==> WellFiled(log[k], newest)
  }

  lemma RefiledWell(e: Entry, newest: int, sec: int)
    requires WellFiled(e, newest) && newest < 0
    ensures WellFiled(e.(at := Filing(e.at, sec)), sec)
  {
    FilingIsLive(e.at, sec);
    if Live(e.sec, sec) {
      SameSlotLive(e.sec, Filing(e.at, sec), sec);
    }
  }

  lemma SameSlotLive(x: int, y: int, newest: int)
    requires Live(x, newest) && Live(y, newest) && x % WINDOW == y % WINDOW
    ensures x == y
  {
    assert -WINDOW < x - y < WINDOW && (x - y) % WINDOW == 0;
  }

  lemma {:induction false} AllRefiledWell(log: seq<Entry>, newest: int, sec: int)
    requires AllWellFiled(log, newest) && newest < 0
    ensures AllWellFiled(Refiled(log, sec), sec)
  {
    hide Filing, WellFiled;
    if log != [] {
      AllRefiledWell(log[..|log| - 1], newest, sec);
      RefiledWell(log[|log| - 1], newest, sec);
    }
  }

  lemma {:induction false} LogIsWellFiled(trades: seq<Trade>, buy: bool)
    ensures AllWellFiled(Log(trades, buy), Newest(trades))
  {
    hide Filing, WellFiled, Refiled;
    if trades != [] {
      var n := |trades| - 1;
      LogIsWellFiled(trades[..n], buy);
      if Counts(trades[n]) {
        NextWellFiled(Log(trades[..n], buy), Newest(trades[..n]), trades[n], buy);
      }
    }
  }

  lemma {:induction false} NextWellFiled(log: seq<Entry>, newest: int, t: Trade, buy: bool)
    requires AllWellFiled(log, newest) && Counts(t)
    ensures AllWellFiled(NextLog(log, newest, t, buy), RollSec(newest, SecOf(t)))
  {
    hide Filing;
    var sec := SecOf(t);
    if newest < 0 {
      AllRefiledWell(log, newest, sec);
    }
    FilingIsLive(sec, RollSec(newest, sec));
  }

  /** Filed under a second of the window that is not the trade's own. */
  predicate Stray(e: Entry, newest: int) {
    Live(e.at, newest) && e.at != e.sec
  }

  ghost function Strays(log: seq<Entry>, newest: int): real {
    if log == [] then 0.0
    else
      var e := log[|log| - 1];
      Strays(log[..|log| - 1], newest) + if Stray(e, newest) then e.size else 0.0
  }

  ghost function StraysIn(log: seq<Entry>, newest: int, i: int): real {
    if log == [] then 0.0
    else
      var e := log[|log| - 1];
      StraysIn(log[..|log| - 1], newest, i) + if Stray(e, newest) && e.at % WINDOW == i then e.size else 0.0
  }

  /** What the ring counts beyond the trades' own seconds is exactly the strays. */
  lemma {:induction false} StraysAreTheDifference(log: seq<Entry>, newest: int, i: int)
    requires AllWellFiled(log, newest)
    ensures Total(log, newest) == Own(log, newest) + Strays(log, newest)
    ensures Slot(log, newest, i) == OwnSlot(log, newest, i) + StraysIn(log, newest, i)
  {
    hide Live;
    if log != [] {
      StraysAreTheDifference(log[..|log| - 1], newest, i);
      assert WellFiled(log[|log| - 1], newest);
    }
  }

  lemma {:induction false} NoStraysIsNothing(log: seq<Entry>, newest: int, i: int)
    requires AllWellFiled(log, newest)
    ensures Strays(log, newest) >= 0.0 && StraysIn(log, newest, i) >= 0.0
    ensures Strays(log, newest) == 0.0 <==> forall k :: 0 <= k < |log| ==> !Stray(log[k], newest)
    ensures StraysIn(log, newest, i) == 0.0
       <==> forall k :: 0 <= k < |log| ==> !(Stray(log[k], newest) && log[k].at % WINDOW == i)
  {
    hide Stray;
    if log != [] {
      NoStraysIsNothing(log[..|log| - 1], newest, i);
      assert WellFiled(log[|log| - 1], newest);
    }
  }

  ghost predicate NoStray(trades: seq<Trade>, buy: bool) {
    forall k :: 0 <= k < |Log(trades, buy)| ==> !Stray(Log(trades, buy)[k], Newest(trades))
  }

  ghost predicate NoStrayIn(trades: seq<Trade>, buy: bool, i: int) {
    forall k :: 0 <= k < |Log(trades, buy)| ==>
      !(Stray(Log(trades, buy)[k], Newest(trades)) && Log(trades, buy)[k].at % WINDOW == i)
  }

  /** A bucket is the plain total of its second exactly when no stray is filed in it: for all sizes and times. */
  lemma {:induction false} BucketIsPlainExactly(trades: seq<Trade>, buy: bool, i: int)
    requires 0 <= i < WINDOW
    ensures OfSide(After(trades), buy).buckets[i] == PlainSlot(trades, buy, Newest(trades), i)
       <==> NoStrayIn(trades, buy, i)
  {
    hide After, PlainSlot, Own, OwnSlot, Slot, Total, Stray, Strays, StraysIn, Log, Newest, WellFiled, AllBig, Tracked;
    RingIsItsLog(trades, buy);
    PlainIsOwn(trades, buy, Newest(trades), i);
    LogIsWellFiled(trades, buy);
    StraysAreTheDifference(Log(trades, buy), Newest(trades), i);
    NoStraysIsNothing(Log(trades, buy), Newest(trades), i);
  }

  ghost predicate SizesFrom(trades: seq<Trade>, least: real) {
    forall k :: 0 <= k < |trades| && Counts(trades[k]) ==> trades[k].size >= least
  }

  lemma {:induction false} RefiledSizes(log: seq<Entry>, sec: int)
    ensures AllBig(log) ==> AllBig(Refiled(log, sec))
  {
    hide Filing;
    if log != [] {
      RefiledSizes(log[..|log| - 1], sec);
    }
  }

  lemma {:induction false} SizesAreBig(trades: seq<Trade>, buy: bool)
    requires SizesFrom(trades, DUST)
    ensures AllBig(Log(trades, buy))
  {
    hide Filing, Refiled, Newest, RollSec;
    if trades != [] {
      var n := |trades| - 1;
      SizesAreBig(trades[..n], buy);
      RefiledSizes(Log(trades[..n], buy), SecOf(trades[n]));
    }
  }

  /**
   * A running sum is the plain window sum exactly when no stray is in the window, at whatever times
   * the trades came.
   */
  lemma {:induction false} SumIsPlainExactly(trades: seq<Trade>, buy: bool)
    requires SizesFrom(trades, DUST)
    ensures OfSide(After(trades), buy).sum == Plain(trades, buy, Newest(trades)) <==> NoStray(trades, buy)
  {
    hide After, Plain, Own, OwnSlot, Slot, Total, Stray, Strays, StraysIn, Log, Newest, WellFiled, AllBig, Tracked,
        BucketsHold;
    SizesAreBig(trades, buy);
    RingIsItsLog(trades, buy);
    PlainIsOwn(trades, buy, Newest(trades), 0);
    LogIsWellFiled(trades, buy);
    StraysAreTheDifference(Log(trades, buy), Newest(trades), 0);
    NoStraysIsNothing(Log(trades, buy), Newest(trades), 0);
  }

  /** A trade 900 seconds late is counted in the window it has left, in a bucket and in the sum. */
  lemma {:induction false} LateTradeIsCounted()
    ensures var trades := [Trade(900_000, 1.0, true), Trade(0, 1.0, true)];
            && Newest(trades) == 900
            && After(trades).buy.sum == 2.0 && Plain(trades, true, 900) == 1.0
            && After(trades).buy.buckets[0] == 2.0 && PlainSlot(trades, true, 900, 0) == 1.0
  {
    var first, late := Trade(900_000, 1.0, true), Trade(0, 1.0, true);
    assert [first, late][..1] == [first] && [first][..0] == [];
    assert Newest([first]) == 900;
    assert Plain([first], true, 900) == 1.0 && PlainSlot([first], true, 900, 0) == 1.0;
    assert After([first]).volSec == 900 && After([first]).buy.sum == 1.0 && After([first]).buy.buckets[0] == 1.0;
  }

  // ----- when nothing strays

  /** From the epoch on, and not out of the window on arrival. */
  predicate OnTime(trades: seq<Trade>, k: nat)
    requires k < |trades|
  {
    Counts(trades[k]) ==> trades[k].ts >= 0 && SecOf(trades[k]) > Newest(trades[..k + 1]) - WINDOW
  }

  ghost predicate AllOnTime(trades: seq<Trade>) {
    forall k :: 0 <= k < |trades| ==> OnTime(trades, k)
  }

  lemma {:induction false} OnTimeNext(trades: seq<Trade>)
    requires trades != [] && AllOnTime(trades)
    ensures AllOnTime(trades[..|trades| - 1]) && OnTime(trades, |trades| - 1)
  {
    hide Newest;
    var n := |trades| - 1;
    forall k | 0 <= k < n ensures OnTime(trades[..n], k) {
      assert OnTime(trades, k) && trades[..n][..k + 1] == trades[..k + 1];
    }
  }

  ghost predicate AtOwnSecond(log: seq<Entry>) {
    forall k :: 0 <= k < |log| ==> log[k].at == log[k].sec
  }

  lemma {:induction false} OnTimeIsOwnSecond(trades: seq<Trade>, buy: bool)
    requires AllOnTime(trades)
    ensures AtOwnSecond(Log(trades, buy)) && (Newest(trades) >= 0 || Log(trades, buy) == [])
  {
    hide Filing;
    if trades != [] {
      var n := |trades| - 1;
      OnTimeNext(trades);
      OnTimeIsOwnSecond(trades[..n], buy);
      assert trades[..n + 1] == trades;
      FilingIsLive(SecOf(trades[n]), Newest(trades));
    }
  }

  /** With every trade on time, each bucket is the plain one, and each sum too when no size is under the threshold. */
  lemma {:induction false} RingIsPlain(trades: seq<Trade>, buy: bool)
    requires AllOnTime(trades)
    ensures forall i ::
            0 <= i < WINDOW ==> OfSide(After(trades), buy).buckets[i] == PlainSlot(trades, buy, Newest(trades), i)
    ensures SizesFrom(trades, DUST) ==> OfSide(After(trades), buy).sum == Plain(trades, buy, Newest(trades))
  {
    hide After, Plain, PlainSlot, Log, Newest, AllOnTime, SizesFrom;
    OnTimeIsOwnSecond(trades, buy);
    forall i | 0 <= i < WINDOW
      ensures OfSide(After(trades), buy).buckets[i] == PlainSlot(trades, buy, Newest(trades), i) {
      BucketIsPlainExactly(trades, buy, i);
    }
    if SizesFrom(trades, DUST) {
      SumIsPlainExactly(trades, buy);
    }
  }

  // ----- the threshold

  ghost predicate SumsArePlain(trades: seq<Trade>) {
    forall buy :: OfSide(After(trades), buy).sum == Plain(trades, buy, Newest(trades))
  }

  /** A size under the threshold is forgotten one second later. */
  lemma {:induction false} DustIsForgotten(size: real)
    requires 0.0 < size < DUST
    ensures var trades := [Trade(0, size, true), Trade(1000, 1.0, false)];
            && AllOnTime(trades) && SizesFrom(trades, size)
            && After(trades).buy.sum == 0.0 && Plain(trades, true, Newest(trades)) == size
  {
    var first, second := Trade(0, size, true), Trade(1000, 1.0, false);
    var trades := [first, second];
    assert trades[..1] == [first] && [first][..0] == [] && trades[..2] == trades;
    assert Newest([first]) == 0 && Newest(trades) == 1;
    assert Plain([first], true, 1) == size;
    DustAfterOne(first);
    DustRolls(After([first]), second, size);
  }

  lemma {:induction false} DustAfterOne(first: Trade)
    requires first.ts == 0 && first.size > 0.0 && first.buy
    ensures After([first]).volSec == 0 && After([first]).buy.sum == first.size && After([first]).buy.buckets[1] == 0.0
  {
    assert [first][..0] == [];
  }

  lemma {:induction false} DustRolls(ring: Ring, t: Trade, size: real)
    requires Shaped(ring.buy) && Shaped(ring.sell) && ring.volSec == 0 && ring.buy.sum == size < DUST
            && ring.buy.buckets[1] == 0.0
    requires t.ts == 1000 && t.size > 0.0 && !t.buy
    ensures OnTrade(ring, t).buy.sum == 0.0
  {
    DrainStart(ring.buy, 0);
    DrainStep(ring.buy, 0, 1);
  }

  /**
   * Sizes from some least one on keep the sums plain for all trades on time exactly when that one
   * is at least the threshold.
   */
  lemma {:induction false} ThresholdExactly(least: real)
    ensures (forall trades: seq<Trade> :: AllOnTime(trades) && SizesFrom(trades, least) ==> SumsArePlain(trades))
       <==> least >= DUST
  {
    hide After, Plain, AllOnTime;
    if least >= DUST {
      forall trades: seq<Trade> | AllOnTime(trades) && SizesFrom(trades, least) ensures SumsArePlain(trades) {
        RingIsPlain(trades, true);
        RingIsPlain(trades, false);
      }
    } else {
      var size := if least > 0.0 then least else DUST / 2.0;
      var trades := [Trade(0, size, true), Trade(1000, 1.0, false)];
      DustIsForgotten(size);
      assert !SumsArePlain(trades);
    }
  }
}
