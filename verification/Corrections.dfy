/** Holm and Benjamini-Hochberg adjusted p-values, against the tests they stand for. */
module Corrections {
  import opened Basics
  import opened Sorting

  datatype PValue = PValue(id: string, p: real)

  datatype Adjusted = Adjusted(id: string, p: real, adjusted: real)

  predicate Ahead(a: PValue, b: PValue) {
    a.p < b.p || (a.p == b.p && Less(a.id, b.id))
  }

  function Ordered(rows: seq<PValue>): seq<PValue> {
    Sort(rows, Ahead)
  }

  // ----- Holm

  /** What the row's p-value is held to by the step-down test. */
  function HolmRaw(sorted: seq<PValue>, i: nat): real
    requires i < |sorted|
  {
    (|sorted| - i) as real * sorted[i].p
  }

  /** The running maximum after k rows. */
  function HolmRunning(sorted: seq<PValue>, k: nat): real
    requires k <= |sorted|
  {
    if k == 0 then 0.0 else Max(HolmRunning(sorted, k - 1), Min(1.0, HolmRaw(sorted, k - 1)))
  }

  method HolmAdjusted(rows: seq<PValue>) returns (out: seq<Adjusted>)
    ensures |out| == |Ordered(rows)|
    ensures forall i :: 0 <= i < |out| ==>
              out[i] == Adjusted(Ordered(rows)[i].id, Ordered(rows)[i].p, HolmRunning(Ordered(rows), i + 1))
  {
    hide Sort, Max, Min, HolmRaw;
    var sorted := Sort(rows, Ahead);
    var running := 0.0;
    out := [];
    for index := 0 to |sorted|
      invariant running == HolmRunning(sorted, index)
      invariant |out| == index
      invariant forall i :: 0 <= i < index ==> out[i] == Adjusted(sorted[i].id, sorted[i].p, HolmRunning(sorted, i + 1))
    {
      running := Max(running, Min(1.0, HolmRaw(sorted, index)));
      out := out + [Adjusted(sorted[index].id, sorted[index].p, running)];
    }
  }

  /** The strict step-down test: how many hypotheses, from the smallest p-value, it rejects before it stops. */
  function StepDown(sorted: seq<PValue>, alpha: real, from: nat): (count: nat)
    requires from <= |sorted|
    ensures from <= count <= |sorted|
    decreases |sorted| - from
  {
    if from < |sorted| && sorted[from].p < alpha / (|sorted| - from) as real then StepDown(sorted, alpha, from + 1)
    else from
  }

  lemma DivideOut(x: real, y: real, n: real)
    requires n > 0.0
    ensures x < y / n <==> n * x < y
  {
    assert y / n * n == y;
    if x < y / n {
      Scales(x, y / n, n);
    } else if x > y / n {
      Scales(y / n, x, n);
    }
  }

  lemma Scales(x: real, y: real, n: real)
    requires x < y && n > 0.0
    ensures n * x < n * y
  {
  }

  lemma {:induction false} StepDownStops(sorted: seq<PValue>, alpha: real, from: nat, i: nat)
    requires from <= i < |sorted|
    ensures i < StepDown(sorted, alpha, from) <==> forall j :: from <= j <= i ==> HolmRaw(sorted, j) < alpha
    decreases |sorted| - from
  {
    DivideOut(sorted[from].p, alpha, (|sorted| - from) as real);
    assert HolmRaw(sorted, from) == (|sorted| - from) as real * sorted[from].p;
    if HolmRaw(sorted, from) < alpha && from < i {
      StepDownStops(sorted, alpha, from + 1, i);
    }
  }

  lemma {:induction false} RunningBelow(sorted: seq<PValue>, alpha: real, k: nat)
    requires k <= |sorted| && 0.0 < alpha <= 1.0
    ensures HolmRunning(sorted, k) < alpha <==> forall j :: 0 <= j < k ==> HolmRaw(sorted, j) < alpha
  {
    hide HolmRaw;
    if k > 0 {
      RunningBelow(sorted, alpha, k - 1);
    }
  }

  /** A Holm adjusted value is below alpha exactly when the strict step-down test rejects the row. */
  lemma {:induction false} HolmIsStepDown(rows: seq<PValue>, alpha: real, i: nat)
    requires i < |Ordered(rows)| && 0.0 < alpha <= 1.0
    ensures HolmRunning(Ordered(rows), i + 1) < alpha <==> i < StepDown(Ordered(rows), alpha, 0)
  {
    hide HolmRaw, Ordered;
    RunningBelow(Ordered(rows), alpha, i + 1);
    StepDownStops(Ordered(rows), alpha, 0, i);
  }

  // ----- Benjamini-Hochberg

  function BhRaw(sorted: seq<PValue>, i: nat): real
    requires i < |sorted|
  {
    sorted[i].p * |sorted| as real / (i + 1) as real
  }

  /** The least capped value from row i on. */
  function BhLeast(sorted: seq<PValue>, i: nat): real
    requires i < |sorted|
    decreases |sorted| - i
  {
    if i == |sorted| - 1 then Min(1.0, BhRaw(sorted, i)) else Min(Min(1.0, BhRaw(sorted, i)), BhLeast(sorted, i + 1))
  }

  method BhAdjusted(rows: seq<PValue>) returns (out: seq<Adjusted>)
    ensures |out| == |Ordered(rows)|
    ensures forall i ::
            0 <= i < |out| ==> out[i] == Adjusted(Ordered(rows)[i].id, Ordered(rows)[i].p, BhLeast(Ordered(rows), i))
  {
    hide Sort, Min, BhRaw;
    var sorted := Sort(rows, Ahead);
    var m := |sorted|;
    var adjusted := new real[m](index requires 0 <= index < m => Min(1.0, BhRaw(sorted, index)));
    if m > 0 {
      var i := m - 2;
      while i >= 0
        invariant -1 <= i <= m - 2
        invariant forall k :: 0 <= k <= i ==> adjusted[k] == Min(1.0, BhRaw(sorted, k))
        invariant forall k :: i < k < m ==> adjusted[k] == BhLeast(sorted, k)
      {
        adjusted[i] := Min(adjusted[i], adjusted[i + 1]);
        i := i - 1;
      }
    }
    out := seq(m,
        index requires 0 <= index < m reads adjusted => Adjusted(sorted[index].id, sorted[index].p, adjusted[index]));
  }

  predicate Passes(sorted: seq<PValue>, alpha: real, k: nat)
    requires 0 < k <= |sorted|
  {
    sorted[k - 1].p < alpha * k as real / |sorted| as real
  }

  lemma {:induction false} PassesByRaw(sorted: seq<PValue>, alpha: real, k: nat)
    requires 0 < k <= |sorted|
    ensures Passes(sorted, alpha, k) <==> BhRaw(sorted, k - 1) < alpha
  {
    Shares(sorted[k - 1].p, alpha, k as real, |sorted| as real);
  }

  /** The strict step-up test: the largest count whose last p-value is below its share of alpha. */
  function StepUp(sorted: seq<PValue>, alpha: real, k: nat): (count: nat)
    requires k <= |sorted|
    ensures count <= k
  {
    if k == 0 then 0
    else if Passes(sorted, alpha, k) then k
    else StepUp(sorted, alpha, k - 1)
  }

  lemma {:induction false} StepUpFinds(sorted: seq<PValue>, alpha: real, k: nat, i: nat)
    requires i < k <= |sorted|
    ensures i < StepUp(sorted, alpha, k) <==> exists j :: i <= j < k && BhRaw(sorted, j) < alpha
  {
    hide BhRaw, Passes;
    PassesByRaw(sorted, alpha, k);
    if !(BhRaw(sorted, k - 1) < alpha) && i < k - 1 {
      StepUpFinds(sorted, alpha, k - 1, i);
    }
  }

  lemma Shares(p: real, alpha: real, k: real, m: real)
    requires k > 0.0 && m > 0.0
    ensures p < alpha * k / m <==> p * m / k < alpha
  {
    DivideOut(p, alpha * k, m);
    assert m * p == p * m;
    var q := p * m / k;
    assert q * k == p * m;
    if q < alpha {
      Scales(q, alpha, k);
    } else if q > alpha {
      Scales(alpha, q, k);
    }
  }

  lemma {:induction false} LeastBelow(sorted: seq<PValue>, alpha: real, i: nat)
    requires i < |sorted| && 0.0 < alpha <= 1.0
    ensures BhLeast(sorted, i) < alpha <==> exists j :: i <= j < |sorted| && BhRaw(sorted, j) < alpha
    decreases |sorted| - i
  {
    hide BhRaw;
    if i < |sorted| - 1 {
      LeastBelow(sorted, alpha, i + 1);
    }
    assert BhRaw(sorted, i) < alpha || BhRaw(sorted, i) >= alpha;
  }

  /** A Benjamini-Hochberg adjusted value is below alpha exactly when the strict step-up test rejects the row. */
  lemma {:induction false} BhIsStepUp(rows: seq<PValue>, alpha: real, i: nat)
    requires i < |Ordered(rows)| && 0.0 < alpha <= 1.0
    ensures BhLeast(Ordered(rows), i) < alpha <==> i < StepUp(Ordered(rows), alpha, |Ordered(rows)|)
  {
    hide BhRaw, Ordered;
    LeastBelow(Ordered(rows), alpha, i);
    StepUpFinds(Ordered(rows), alpha, |Ordered(rows)|, i);
  }

  // ----- order, and the two against each other

  ghost predicate Probabilities(rows: seq<PValue>) {
    forall row :: row in rows ==> 0.0 <= row.p <= 1.0
  }

  ghost predicate Rising(sorted: seq<PValue>) {
    && (forall i :: 0 <= i < |sorted| ==> 0.0 <= sorted[i].p <= 1.0)
    && (forall i, j :: 0 <= i < j < |sorted| ==> sorted[i].p <= sorted[j].p)
  }

  lemma AheadIsOrder()
    ensures StrictWeakOrder(Ahead)
  {
    LessIsOrder();
    forall a, b ensures Ahead(a, b) ==> !Ahead(b, a) {
      LessTotal(a.id, b.id);
    }
    forall a: PValue, b: PValue, c: PValue ensures Ahead(a, c) ==> Ahead(a, b) || Ahead(b, c) {
      assert Less(a.id, c.id) ==> Less(a.id, b.id) || Less(b.id, c.id);
    }
  }

  lemma {:induction false} OrderedRises(rows: seq<PValue>)
    requires Probabilities(rows)
    ensures Rising(Ordered(rows))
  {
    hide Sort;
    var sorted := Ordered(rows);
    AheadIsOrder();
    SortSorted(rows, Ahead);
    forall i | 0 <= i < |sorted| ensures 0.0 <= sorted[i].p <= 1.0 {
      assert sorted[i] in multiset(sorted) && sorted[i] in multiset(rows);
    }
    forall i, j | 0 <= i < j < |sorted| ensures sorted[i].p <= sorted[j].p {
      assert !Ahead(sorted[j], sorted[i]);
    }
  }

  /** The order the rows came in does not matter. */
  lemma {:induction false} InputOrderDoesNotMatter(rows: seq<PValue>, other: seq<PValue>)
    requires multiset(rows) == multiset(other)
    ensures Ordered(rows) == Ordered(other)
  {
    hide Sort;
    AheadIsOrder();
    SortSorted(rows, Ahead);
    SortSorted(other, Ahead);
    forall x: PValue, y: PValue | x != y ensures Ahead(x, y) || Ahead(y, x) {
      LessTotal(x.id, y.id);
    }
    SortedUnique(Ordered(rows), Ordered(other), Ahead);
  }

  /** Holm values rise along the sorted rows, and lie between the p-value and one. */
  lemma {:induction false} HolmRises(sorted: seq<PValue>, i: nat, j: nat)
    requires Rising(sorted) && i <= j < |sorted|
    ensures HolmRunning(sorted, i + 1) <= HolmRunning(sorted, j + 1) <= 1.0
    ensures sorted[j].p <= HolmRunning(sorted, j + 1)
  {
    hide HolmRaw;
    HolmCapped(sorted, j + 1);
    HolmRawAtLeastP(sorted, j);
    if i < j {
      HolmRises(sorted, i, j - 1);
    }
  }

  lemma {:induction false} HolmRawAtLeastP(sorted: seq<PValue>, i: nat)
    requires i < |sorted| && 0.0 <= sorted[i].p
    ensures sorted[i].p <= HolmRaw(sorted, i)
  {
    var n := (|sorted| - i) as real;
    assert n >= 1.0;
    Grows(sorted[i].p, n);
  }

  lemma {:induction false} HolmCapped(sorted: seq<PValue>, k: nat)
    requires k <= |sorted|
    ensures HolmRunning(sorted, k) <= 1.0
  {
    hide HolmRaw;
    if k > 0 {
      HolmCapped(sorted, k - 1);
    }
  }

  lemma Grows(p: real, n: real)
    requires p >= 0.0 && n >= 1.0
    ensures p <= n * p
  {
    ProductMonotone(1.0, n, p);
  }

  /** Benjamini-Hochberg values rise too, and lie between the p-value and one. */
  lemma {:induction false} BhRises(sorted: seq<PValue>, i: nat, j: nat)
    requires Rising(sorted) && i <= j < |sorted|
    ensures BhLeast(sorted, i) <= BhLeast(sorted, j) <= 1.0
    ensures sorted[i].p <= BhLeast(sorted, i)
    decreases |sorted| - i
  {
    RawAtLeastP(sorted, i);
    if i < j {
      BhRises(sorted, i + 1, j);
    } else if i < |sorted| - 1 {
      BhRises(sorted, i + 1, i + 1);
    }
  }

  lemma {:induction false} RawAtLeastP(sorted: seq<PValue>, i: nat)
    requires i < |sorted| && 0.0 <= sorted[i].p
    ensures sorted[i].p <= BhRaw(sorted, i)
  {
    var p, m, k := sorted[i].p, |sorted| as real, (i + 1) as real;
    AtLeastOne(m, k);
    Grows(p, m / k);
    Swapped(p, m, k);
  }

  lemma AtLeastOne(m: real, k: real)
    requires m >= k > 0.0
    ensures m / k >= 1.0
  {
    QuotientTimes(m, k);
    FactorKeepsOrder(k, m / k, 1.0);
  }

  lemma Swapped(p: real, m: real, k: real)
    requires k > 0.0
    ensures p * m / k == m / k * p
  {
    QuotientTimes(p * m, k);
    QuotientTimes(m, k);
    assert k * (m / k * p) == k * (m / k) * p;
    FactorKeepsOrder(k, p * m / k, m / k * p);
  }

  /** Benjamini-Hochberg never exceeds Holm. */
  lemma {:induction false} BhWithinHolm(sorted: seq<PValue>, i: nat)
    requires Rising(sorted) && i < |sorted|
    ensures BhLeast(sorted, i) <= HolmRunning(sorted, i + 1)
  {
    RawWithinRaw(sorted, i);
  }

  lemma {:induction false} RawWithinRaw(sorted: seq<PValue>, i: nat)
    requires i < |sorted| && 0.0 <= sorted[i].p
    ensures BhRaw(sorted, i) <= HolmRaw(sorted, i)
  {
    CountProduct(|sorted|, i);
    SharesOrder(sorted[i].p, |sorted| as real, (|sorted| - i) as real, (i + 1) as real);
  }

  lemma CountProduct(m: int, i: int)
    requires 0 <= i < m
    ensures m as real <= (m - i) as real * (i + 1) as real
  {
    IntMonotone(i, 0, m - i - 1);
    Expanded(m, i);
    CastProduct(m - i, i + 1);
  }

  lemma Expanded(m: int, i: int)
    ensures (m - i) * (i + 1) == m + i * (m - i - 1)
  {
  }

  lemma CastProduct(x: int, y: int)
    ensures (x * y) as real == x as real * y as real
  {
  }

  lemma SharesOrder(p: real, m: real, n: real, k: real)
    requires p >= 0.0 && k > 0.0 && m <= n * k
    ensures p * m / k <= n * p
  {
    ProductMonotone(m, n * k, p);
    assert (n * k) * p == (n * p) * k;
    DividesBack(p * m, k, n * p);
  }

  lemma DividesBack(x: real, k: real, y: real)
    requires k > 0.0 && x <= y * k
    ensures x / k <= y
  {
    assert x / k * k == x;
    if x / k > y {
      Scales(y, x / k, k);
    }
  }
}
