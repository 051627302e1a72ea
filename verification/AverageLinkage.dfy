/**
 * Average linkage (UPGMA): repeatedly merge the two clusters with the highest mean correlation,
 * while every pair across them has one and the mean is at least 0.80.
 */
module AverageLinkage {
  import opened Basics
  import opened Sorting

  const CLUSTER_RHO := 0.8

  type Rho = (string, string) -> Option<real>
  type Group = seq<string>

  // ----- the algorithm

  function CellOf(rho: Rho, a: string): string -> real {
    (b: string) => var v := rho(a, b); if v.Some? then v.value else 0.0
  }

  function RowOf(rho: Rho, right: Group): string -> real {
    (a: string) => Sum(right, CellOf(rho, a))
  }

  predicate AllDefined(rho: Rho, left: Group, right: Group) {
    forall a, b :: a in left && b in right ==> rho(a, b).Some?
  }

  /** None when some pair has no correlation, or there is no pair. */
  function MeanRho(rho: Rho, left: Group, right: Group): Option<real> {
    if !AllDefined(rho, left, right) || |left| * |right| == 0 then None
    else Some(Sum(left, RowOf(rho, right)) / (|left| * |right|) as real)
  }

  method ComputeMeanRho(rho: Rho, left: Group, right: Group) returns (mean: Option<real>)
    ensures mean == MeanRho(rho, left, right)
  {
    var sum, n := 0.0, 0;
    for i := 0 to |left|
      invariant sum == Sum(left[..i], RowOf(rho, right)) && n == i * |right|
      invariant AllDefined(rho, left[..i], right)
    {
      ghost var before := sum;
      for j := 0 to |right|
        invariant sum == before + Sum(right[..j], CellOf(rho, left[i])) && n == i * |right| + j
        invariant forall b :: b in right[..j] ==> rho(left[i], b).Some?
      {
        var value := rho(left[i], right[j]);
        if value == None {
          assert left[i] in left && right[j] in right;
          return None;
        }
        assert right[..j + 1][..j] == right[..j];
        sum, n := sum + value.value, n + 1;
      }
      assert right[..|right|] == right;
      assert left[..i + 1][..i] == left[..i];
    }
    assert left[..|left|] == left;
    mean := if n == 0 then None else Some(sum / n as real);
  }

  function Label(group: Group): string {
    if group == [] then "" else Sort(group, Less)[0]
  }

  function Join(a: string, b: string): string {
    a + "\0" + b
  }

  function PairLabel(left: Group, right: Group): string {
    var pair := Sort([Label(left), Label(right)], Less);
    Join(pair[0], pair[1])
  }

  /** A pair that may merge: its mean and its label. */
  datatype Offer = Offer(value: real, name: string)

  datatype Found = Found(i: nat, j: nat, offer: Offer)

  function OfferOf(rho: Rho, left: Group, right: Group): Option<Offer> {
    var value := MeanRho(rho, left, right);
    if value == None || value.value < CLUSTER_RHO then None else Some(Offer(value.value, PairLabel(left, right)))
  }

  type Offers = (nat, nat) -> Option<Offer>

  function OffersIn(rho: Rho, groups: seq<Group>): Offers {
    (i: nat, j: nat) => if i < |groups| && j < |groups| then OfferOf(rho, groups[i], groups[j]) else None
  }

  /** The higher mean, then the earlier label. */
  predicate Ahead(x: Offer, y: Offer) {
    x.value > y.value || (x.value == y.value && Less(x.name, y.name))
  }

  /** One turn of the inner loop. */
  function Consider(offer: Option<Offer>, i: nat, j: nat, best: Option<Found>): Option<Found> {
    if offer == None then best
    else if best == None || Ahead(offer.value, best.value.offer) then Some(Found(i, j, offer.value))
    else best
  }

  /** The pairs from (i, j) on, row by row. */
  function Scan(n: nat, offers: Offers, i: nat, j: nat, best: Option<Found>): Option<Found>
    decreases n - i, n - j
  {
    if i >= n then best
    else if j >= n then Scan(n, offers, i + 1, i + 2, best)
    else Scan(n, offers, i, j + 1, Consider(offers(i, j), i, j, best))
  }

  ghost predicate Within(n: nat, best: Option<Found>) {
    best.Some? ==> best.value.i < best.value.j < n
  }

  lemma {:induction false} ScanWithin(n: nat, offers: Offers, i: nat, j: nat, best: Option<Found>)
    requires Within(n, best) && i < j
    ensures Within(n, Scan(n, offers, i, j, best))
    decreases n - i, n - j
  {
    if i < n {
      if j >= n {
        ScanWithin(n, offers, i + 1, i + 2, best);
      } else {
        ScanWithin(n, offers, i, j + 1, Consider(offers(i, j), i, j, best));
      }
    }
  }

  function BestPair(rho: Rho, groups: seq<Group>): (best: Option<Found>)
    ensures Within(|groups|, best)
  {
    ScanWithin(|groups|, OffersIn(rho, groups), 0, 1, None);
    Scan(|groups|, OffersIn(rho, groups), 0, 1, None)
  }

  function Merged(groups: seq<Group>, i: nat, j: nat): seq<Group>
    requires i < j < |groups|
  {
    groups[..i] + groups[i + 1..j] + groups[j + 1..] + [groups[i] + groups[j]]
  }

  function Settle(rho: Rho, groups: seq<Group>): seq<Group>
    decreases |groups|
  {
    var best := BestPair(rho, groups);
    if best == None then groups else Settle(rho, Merged(groups, best.value.i, best.value.j))
  }

  function Singletons(ids: seq<string>): seq<Group> {
    seq(|ids|, i requires 0 <= i < |ids| => [ids[i]])
  }

  function Assign(group: Group, name: string, out: map<string, string>): map<string, string> {
    if group == [] then out else Assign(group[..|group| - 1], name, out)[group[|group| - 1] := name]
  }

  function Labels(groups: seq<Group>): map<string, string> {
    if groups == [] then map[]
    else
      var n := |groups| - 1;
      Assign(groups[n], Label(groups[n]), Labels(groups[..n]))
  }

  method Cluster(ids: seq<string>, rho: Rho) returns (out: map<string, string>)
    ensures out == Labels(Settle(rho, Singletons(ids)))
  {
    var groups := Singletons(ids);
    var best := FindBest(rho, groups);
    while best.Some?
      invariant best == BestPair(rho, groups)
      invariant Settle(rho, groups) == Settle(rho, Singletons(ids))
      decreases |groups|
    {
      groups := Merged(groups, best.value.i, best.value.j);
      best := FindBest(rho, groups);
    }
    out := NameAll(groups);
  }

  method NameAll(groups: seq<Group>) returns (out: map<string, string>)
    ensures out == Labels(groups)
  {
    out := map[];
    for k := 0 to |groups|
      invariant out == Labels(groups[..k])
    {
      var name := Label(groups[k]);
      ghost var before := out;
      for m := 0 to |groups[k]|
        invariant out == Assign(groups[k][..m], name, before)
      {
        assert groups[k][..m + 1][..m] == groups[k][..m];
        out := out[groups[k][m] := name];
      }
      assert groups[k][..|groups[k]|] == groups[k];
      assert groups[..k + 1][..k] == groups[..k];
    }
    assert groups[..|groups|] == groups;
  }

  method MakeOffer(rho: Rho, left: Group, right: Group) returns (offer: Option<Offer>)
    ensures offer == OfferOf(rho, left, right)
  {
    var value := ComputeMeanRho(rho, left, right);
    if value == None || value.value < CLUSTER_RHO {
      return None;
    }
    offer := Some(Offer(value.value, PairLabel(left, right)));
  }

  lemma OfferAt(rho: Rho, groups: seq<Group>, i: nat, j: nat)
    requires i < |groups| && j < |groups|
    ensures OffersIn(rho, groups)(i, j) == OfferOf(rho, groups[i], groups[j])
  {
  }

  method FindBest(rho: Rho, groups: seq<Group>) returns (best: Option<Found>)
    ensures best == BestPair(rho, groups)
  {
    best := None;
    for i := 0 to |groups|
      invariant Scan(|groups|, OffersIn(rho, groups), i, i + 1, best) == BestPair(rho, groups)
    {
      best := ScanRow(rho, groups, i, best);
    }
  }

  lemma ScanSteps(n: nat, offers: Offers, i: nat, j: nat, best: Option<Found>)
    requires i < n
    ensures Scan(n, offers, i, j, best) ==
      if j < n then Scan(n, offers, i, j + 1, Consider(offers(i, j), i, j, best))
      else Scan(n, offers, i + 1, i + 2, best)
  {
  }

  method ScanRow(rho: Rho, groups: seq<Group>, i: nat, found: Option<Found>) returns (best: Option<Found>)
    requires i < |groups|
    ensures Scan(|groups|, OffersIn(rho, groups), i + 1, i + 2, best)
            == Scan(|groups|, OffersIn(rho, groups), i, i + 1, found)
  {
    hide Scan, OffersIn, OfferOf, Consider;
    best := found;
    var j := i + 1;
    while j < |groups|
      invariant i < j <= |groups|
      invariant Scan(|groups|, OffersIn(rho, groups), i, j, best)
              == Scan(|groups|, OffersIn(rho, groups), i, i + 1, found)
    {
      ScanSteps(|groups|, OffersIn(rho, groups), i, j, best);
      OfferAt(rho, groups, i, j);
      best := PickAhead(rho, groups, i, j, best);
      j := j + 1;
    }
    ScanSteps(|groups|, OffersIn(rho, groups), i, j, best);
  }

  method PickAhead(rho: Rho, groups: seq<Group>, i: nat, j: nat, found: Option<Found>) returns (best: Option<Found>)
    requires i < |groups| && j < |groups|
    ensures best == Consider(OfferOf(rho, groups[i], groups[j]), i, j, found)
  {
    best := found;
    var offer := MakeOffer(rho, groups[i], groups[j]);
    if offer.Some? && (best == None || Ahead(offer.value, best.value.offer)) {
      best := Some(Found(i, j, offer.value));
    }
  }
}
