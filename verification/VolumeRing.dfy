/** Fifteen minutes of traded volume: a ring of one-second buckets with running sums. */
module VolumeRing {

  const WINDOW := 900
  const DUST := 0.000000000001

  datatype Trade = Trade(ts: int, size: real, buy: bool)

  /** The buckets and the running sum of one taker side. */
  datatype Side = Side(buckets: seq<real>, sum: real)

  datatype Ring = Ring(buy: Side, sell: Side, volSec: int)

  predicate Shaped(side: Side) {
    |side.buckets| == WINDOW
  }

  function Zeros(): (r: seq<real>)
    ensures |r| == WINDOW
  {
    seq(WINDOW, _ => 0.0)
  }

  function Emptied(side: Side, i: nat): (r: Side)
    requires Shaped(side) && i < WINDOW
    ensures Shaped(r)
  {
    Side(side.buckets[i := 0.0], side.sum - side.buckets[i])
  }

  /** Empty the next k seconds' buckets. */
  function Drain(side: Side, volSec: int, k: nat): (r: Side)
    requires Shaped(side)
    ensures Shaped(r)
  {
    if k == 0 then side
    else
      Emptied(Drain(side, volSec, k - 1), (volSec + k) % WINDOW)
  }

  function Settle(side: Side): Side {
    Side(side.buckets, if side.sum < DUST then 0.0 else side.sum)
  }

  function RollSide(side: Side, volSec: int, sec: int): (r: Side)
    requires Shaped(side)
    ensures Shaped(r)
  {
    if volSec < 0 || sec <= volSec then side
    else if sec - volSec >= WINDOW then Side(Zeros(), 0.0)
    else Settle(Drain(side, volSec, sec - volSec))
  }

  function RollSec(volSec: int, sec: int): int {
    if volSec < 0 || sec > volSec then sec else volSec
  }

  function AddTo(side: Side, sec: int, size: real): (r: Side)
    requires Shaped(side)
    ensures Shaped(r)
  {
    var i := sec % WINDOW;
    Side(side.buckets[i := side.buckets[i] + size], side.sum + size)
  }

  function SecOf(t: Trade): int {
    t.ts / 1000
  }

  function Rolled(ring: Ring, sec: int): (r: Ring)
    requires Shaped(ring.buy) && Shaped(ring.sell)
    ensures Shaped(r.buy) && Shaped(r.sell)
  {
    Ring(RollSide(ring.buy, ring.volSec, sec), RollSide(ring.sell, ring.volSec, sec), RollSec(ring.volSec, sec))
  }

  function Filed(ring: Ring, sec: int, t: Trade): (r: Ring)
    requires Shaped(ring.buy) && Shaped(ring.sell)
    ensures Shaped(r.buy) && Shaped(r.sell)
  {
    if t.buy then ring.(buy := AddTo(ring.buy, sec, t.size)) else ring.(sell := AddTo(ring.sell, sec, t.size))
  }

  function OnTrade(ring: Ring, t: Trade): (r: Ring)
    requires Shaped(ring.buy) && Shaped(ring.sell)
    ensures Shaped(r.buy) && Shaped(r.sell)
  {
    if t.size <= 0.0 then ring
    else
      Filed(Rolled(ring, SecOf(t)), SecOf(t), t)
  }

  const START := Ring(Side(Zeros(), 0.0), Side(Zeros(), 0.0), -1)

  function After(trades: seq<Trade>): (r: Ring)
    ensures Shaped(r.buy) && Shaped(r.sell)
  {
    if trades == [] then START else OnTrade(After(trades[..|trades| - 1]), trades[|trades| - 1])
  }

  class FeatureAccumulator {
    const volBuy: array<real>
    const volSell: array<real>
    var volSec: int
    var buySum: real
    var sellSum: real
    ghost var trades: seq<Trade>

    ghost predicate Valid()
      reads this, volBuy, volSell
    {
      && volBuy != volSell
      && volBuy.Length == volSell.Length == WINDOW
      && Contents() == After(trades)
    }

    ghost function Contents(): Ring
      reads this, volBuy, volSell
    {
      Ring(Side(volBuy[..], buySum), Side(volSell[..], sellSum), volSec)
    }

    constructor ()
      ensures Valid() && trades == [] && fresh(volBuy) && fresh(volSell)
    {
      volBuy := new real[WINDOW](_ => 0.0);
      volSell := new real[WINDOW](_ => 0.0);
      volSec, buySum, sellSum := -1, 0.0, 0.0;
      trades := [];
      new;
      assert volBuy[..] == Zeros() && volSell[..] == Zeros();
    }

    method OnTrade(t: Trade)
      requires Valid()
      modifies this, volBuy, volSell
      ensures Valid() && trades == old(trades) + [t]
    {
      hide Drain, RollSide, RollSec, AddTo;
      assert (trades + [t])[..|trades|] == trades;
      if t.size <= 0.0 {
        trades := trades + [t];
        return;
      }
      var sec := t.ts / 1000;
      RollVol(sec);
      File(sec, t);
      trades := trades + [t];
    }

    /** The trade goes into its second's bucket and its side's sum. */
    method File(sec: int, t: Trade)
      requires volBuy != volSell && volBuy.Length == volSell.Length == WINDOW
      modifies `buySum, `sellSum, volBuy, volSell
      ensures Contents() == Filed(old(Contents()), sec, t)
    {
      var i := (sec % WINDOW + WINDOW) % WINDOW;
      assert i == sec % WINDOW;
      if t.buy {
        volBuy[i] := volBuy[i] + t.size;
        buySum := buySum + t.size;
      } else {
        volSell[i] := volSell[i] + t.size;
        sellSum := sellSum + t.size;
      }
    }

    method RollVol(sec: int)
      requires volBuy != volSell && volBuy.Length == volSell.Length == WINDOW
      modifies `volSec, `buySum, `sellSum, volBuy, volSell
      ensures Contents() == Rolled(old(Contents()), sec)
    {
      hide Drain;
      if volSec < 0 {
        volSec := sec;
        return;
      }
      var gap := sec - volSec;
      if gap <= 0 {
        return;
      }
      if gap >= WINDOW {
        forall i | 0 <= i < WINDOW {
          volBuy[i] := 0.0;
        }
        forall i | 0 <= i < WINDOW {
          volSell[i] := 0.0;
        }
        assert volBuy[..] == Zeros() && volSell[..] == Zeros();
        buySum, sellSum := 0.0, 0.0;
      } else {
        DrainBoth(gap);
        if buySum < DUST {
          buySum := 0.0;
        }
        if sellSum < DUST {
          sellSum := 0.0;
        }
      }
      volSec := sec;
    }

    method DrainBoth(gap: nat)
      requires volBuy != volSell && volBuy.Length == volSell.Length == WINDOW
      modifies `buySum, `sellSum, volBuy, volSell
      ensures Contents()
              == Ring(Drain(old(Contents()).buy, volSec, gap), Drain(old(Contents()).sell, volSec, gap), volSec)
    {
      hide Drain;
      DrainStart(old(Contents()).buy, volSec);
      DrainStart(old(Contents()).sell, volSec);
      for k := 1 to gap + 1
        invariant Side(volBuy[..], buySum) == Drain(old(Contents()).buy, volSec, k - 1)
        invariant Side(volSell[..], sellSum) == Drain(old(Contents()).sell, volSec, k - 1)
      {
        DrainStep(old(Contents()).buy, volSec, k);
        DrainStep(old(Contents()).sell, volSec, k);
        DrainOne((volSec + k) % WINDOW);
      }
    }

    method DrainOne(i: nat)
      requires volBuy != volSell && volBuy.Length == volSell.Length == WINDOW && i < WINDOW
      modifies `buySum, `sellSum, volBuy, volSell
      ensures Side(volBuy[..], buySum) == Emptied(Side(old(volBuy[..]), old(buySum)), i)
      ensures Side(volSell[..], sellSum) == Emptied(Side(old(volSell[..]), old(sellSum)), i)
    {
      buySum := buySum - volBuy[i];
      sellSum := sellSum - volSell[i];
      volBuy[i] := 0.0;
      volSell[i] := 0.0;
    }
  }

  lemma DrainStart(side: Side, volSec: int)
    requires Shaped(side)
    ensures Drain(side, volSec, 0) == side
  {
  }

  lemma DrainStep(side: Side, volSec: int, k: nat)
    requires Shaped(side) && k > 0
    ensures Drain(side, volSec, k) == Emptied(Drain(side, volSec, k - 1), (volSec + k) % WINDOW)
  {
  }
}
