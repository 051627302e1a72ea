/**
 * What average linkage promises, and why the order of its input does not matter:
 * on sets of names the merge is a function of the partition alone.
 */
module LinkageOrder {
  import opened Basics
  import opened Sorting
  import opened AverageLinkage

  // ----- sums over sets

  ghost function SetSum(s: set<string>, f: string -> real): real {
    if s == {} then 0.0
    else
      var x :| x in s;
      f(x) + SetSum(s - {x}, f)
  }

  lemma {:induction false} SetSumTake(s: set<string>, f: string -> real, y: string)
    requires y in s
    ensures SetSum(s, f) == f(y) + SetSum(s - {y}, f)
    decreases s
  {
    var x :| x in s && SetSum(s, f) == f(x) + SetSum(s - {x}, f);
    if x != y {
      SetSumTake(s - {x}, f, y);
      SetSumTake(s - {y}, f, x);
      assert s - {x} - {y} == s - {y} - {x};
    }
  }

  lemma {:induction false} SetSumAdd(s: set<string>, f: string -> real, g: string -> real, h: string -> real)
    requires forall x :: x in s ==> h(x) == f(x) + g(x)
    ensures SetSum(s, h) == SetSum(s, f) + SetSum(s, g)
    decreases s
  {
    if s != {} {
      var x :| x in s;
      SetSumTake(s, f, x); SetSumTake(s, g, x); SetSumTake(s, h, x);
      SetSumAdd(s - {x}, f, g, h);
    }
  }

  lemma {:induction false} SetSumZero(s: set<string>, f: string -> real)
    requires forall x :: x in s ==> f(x) == 0.0
    ensures SetSum(s, f) == 0.0
    decreases s
  {
    if s != {} {
      var x :| x in s;
      SetSumTake(s, f, x);
      SetSumZero(s - {x}, f);
    }
  }

  lemma SetSumAgree(s: set<string>, f: string -> real, g: string -> real)
    requires forall x :: x in s ==> f(x) == g(x)
    ensures SetSum(s, f) == SetSum(s, g)
  {
    var zero := (x: string) => 0.0;
    SetSumZero(s, zero);
    SetSumAdd(s, g, zero, f);
  }

  ghost function Elems(g: Group): set<string> {
    set x | x in g
  }

  ghost predicate Distinct(g: Group) {
    forall i, j :: 0 <= i < j < |g| ==> g[i] != g[j]
  }

  lemma {:induction false} SumOfDistinct(g: Group, f: string -> real)
    requires Distinct(g)
    ensures Sum(g, f) == SetSum(Elems(g), f)
    ensures |Elems(g)| == |g|
  {
    if g != [] {
      var n := |g| - 1;
      SumOfDistinct(g[..n], f);
      assert g[n] !in g[..n];
      assert Elems(g) == Elems(g[..n]) + {g[n]};
      assert Elems(g) - {g[n]} == Elems(g[..n]);
      SetSumTake(Elems(g), f, g[n]);
    }
  }

  // ----- the same notions on sets

  ghost predicate Symmetric(rho: Rho) {
    forall a, b :: rho(a, b) == rho(b, a)
  }

  ghost function RowTotal(rho: Rho, right: set<string>): string -> real {
    (a: string) => SetSum(right, CellOf(rho, a))
  }

  ghost function Cross(rho: Rho, left: set<string>, right: set<string>): real {
    SetSum(left, RowTotal(rho, right))
  }

  lemma {:induction false} CrossSymmetric(rho: Rho, left: set<string>, right: set<string>)
    requires Symmetric(rho)
    ensures Cross(rho, left, right) == Cross(rho, right, left)
    decreases left
  {
    if left == {} {
      SetSumZero(right, RowTotal(rho, left));
    } else {
      var x :| x in left;
      var rest := left - {x};
      SetSumTake(left, RowTotal(rho, right), x);
      CrossSymmetric(rho, rest, right);
      forall b | b in right ensures RowTotal(rho, left)(b) == CellOf(rho, x)(b) + RowTotal(rho, rest)(b) {
        SetSumTake(left, CellOf(rho, b), x);
      }
      SetSumAdd(right, CellOf(rho, x), RowTotal(rho, rest), RowTotal(rho, left));
    }
  }

  ghost predicate Linked(rho: Rho, left: set<string>, right: set<string>) {
    forall a, b :: a in left && b in right ==> rho(a, b).Some?
  }

  ghost function Mean(rho: Rho, left: set<string>, right: set<string>): real
    requires left != {} && right != {}
  {
    Cross(rho, left, right) / (|left| * |right|) as real
  }

  ghost predicate Mergeable(rho: Rho, left: set<string>, right: set<string>) {
    left != {} && right != {} && Linked(rho, left, right) && Mean(rho, left, right) >= CLUSTER_RHO
  }

  lemma MeanOfGroups(rho: Rho, g: Group, h: Group)
    requires Distinct(g) && Distinct(h) && g != [] && h != []
    ensures Elems(g) != {} && Elems(h) != {}
    ensures MeanRho(rho, g, h) == if Linked(rho, Elems(g), Elems(h)) then Some(Mean(rho, Elems(g), Elems(h))) else None
  {
    assert g[0] in Elems(g) && h[0] in Elems(h);
    assert |g| * |h| != 0;
    SumOfDistinct(g, RowOf(rho, h));
    forall a | a in Elems(g) ensures RowOf(rho, h)(a) == RowTotal(rho, Elems(h))(a) {
      SumOfDistinct(h, CellOf(rho, a));
    }
    SumOfDistinct(h, CellOf(rho, ""));
    SetSumAgree(Elems(g), RowOf(rho, h), RowTotal(rho, Elems(h)));
  }

  // ----- labels

  ghost predicate IsLeast(x: string, s: set<string>) {
    x in s && forall y :: y in s ==> !Less(y, x)
  }

  lemma LeastIsUnique(x: string, y: string, s: set<string>)
    requires IsLeast(x, s) && IsLeast(y, s)
    ensures x == y
  {
    LessTotal(x, y);
  }

  /** A group is labelled by its least member. */
  lemma LabelIsLeast(g: Group)
    requires g != []
    ensures IsLeast(Label(g), Elems(g))
  {
    LessIsOrder();
    SortSorted(g, Less);
    var r := Sort(g, Less);
    LessTotal(r[0], r[0]);
    forall y | y in Elems(g) ensures !Less(y, r[0]) {
      assert y in multiset(r);
      var k :| 0 <= k < |r| && r[k] == y;
    }
    assert r[0] in multiset(g);
  }

  lemma PairLabelSorted(g: Group, h: Group)
    requires Label(g) != Label(h)
    ensures PairLabel(g, h) == if Less(Label(g), Label(h)) then Join(Label(g), Label(h)) else Join(Label(h), Label(g))
  {
    var a, b := Label(g), Label(h);
    LessTotal(a, b);
    assert [a, b][..1] == [a] && [a][..0] == [];
    assert Insert(a, [], Less) == [a];
    assert Sort([a], Less) == [a];
    assert Sort([a, b], Less) == Insert(b, [a], Less);
    assert Insert(b, [], Less) == [b];
  }

  // ----- the scan finds a best pair

  lemma AheadWeakOrder(x: Offer, y: Offer, z: Offer)
    requires !Ahead(x, y) && Ahead(z, y)
    ensures !Ahead(x, z)
  {
    LessTotal(x.name, z.name);
    LessTotal(x.name, y.name);
    if Less(x.name, z.name) && Less(z.name, y.name) {
      LessTransitive(x.name, z.name, y.name);
    }
  }

  predicate Before(k: nat, l: nat, i: nat, j: nat) {
    k < i || (k == i && l < j)
  }

  /** After every pair before (i, j): nothing is on offer, or the find is and nothing is ahead of it. */
  ghost predicate Leads(n: nat, offers: Offers, best: Option<Found>, i: nat, j: nat) {
    && (best == None ==> forall k, l :: 0 <= k < l < n && Before(k, l, i, j) ==> offers(k, l) == None)
    && (best.Some? ==>
          var f := best.value;
          && f.i < f.j < n && offers(f.i, f.j) == Some(f.offer)
          && forall k, l ::
              0 <= k < l < n && Before(k, l, i, j) && offers(k, l).Some? ==> !Ahead(offers(k, l).value, f.offer))
  }

  lemma ConsiderLeads(n: nat, offers: Offers, best: Option<Found>, i: nat, j: nat)
    requires i < j < n && Leads(n, offers, best, i, j)
    ensures Leads(n, offers, Consider(offers(i, j), i, j, best), i, j + 1)
  {
    var next := Consider(offers(i, j), i, j, best);
    if next.Some? {
      var f := next.value.offer;
      LessTotal(f.name, f.name);
      if best.Some? && next != best {
        forall k, l | 0 <= k < l < n && Before(k, l, i, j) && offers(k, l).Some? ensures !Ahead(offers(k, l).value, f) {
          AheadWeakOrder(offers(k, l).value, best.value.offer, f);
        }
      }
    }
  }

  lemma {:induction false} ScanLeads(n: nat, offers: Offers, i: nat, j: nat, best: Option<Found>)
    requires i < j && Leads(n, offers, best, i, j)
    ensures Leads(n, offers, Scan(n, offers, i, j, best), n, n)
    decreases n - i, n - j
  {
    hide Leads, Consider;
    if i >= n {
      LeadsOn(n, offers, best, i, j, n, n);
    } else if j >= n {
      LeadsOn(n, offers, best, i, j, i + 1, i + 2);
      ScanLeads(n, offers, i + 1, i + 2, best);
    } else {
      ConsiderLeads(n, offers, best, i, j);
      ScanLeads(n, offers, i, j + 1, Consider(offers(i, j), i, j, best));
    }
  }

  /** No pair lies between the end of one row and the start of the next, or past the last row. */
  lemma LeadsOn(n: nat, offers: Offers, best: Option<Found>, i: nat, j: nat, nextI: nat, nextJ: nat)
    requires Leads(n, offers, best, i, j)
    requires i >= n || (j >= n && nextI == i + 1 && nextJ == i + 2)
    ensures Leads(n, offers, best, nextI, nextJ)
  {
    forall k, l | 0 <= k < l < n && Before(k, l, nextI, nextJ) ensures Before(k, l, i, j) {
    }
  }

  // ----- partitions

  ghost predicate Disjoint(groups: seq<Group>) {
    forall i, j :: 0 <= i < j < |groups| ==> Elems(groups[i]) !! Elems(groups[j])
  }

  ghost predicate Proper(groups: seq<Group>) {
    && Disjoint(groups)
    && forall i :: 0 <= i < |groups| ==> groups[i] != [] && Distinct(groups[i])
  }

  ghost function Parts(groups: seq<Group>): set<set<string>> {
    set i | 0 <= i < |groups| :: Elems(groups[i])
  }

  ghost function Union(parts: set<set<string>>): set<string> {
    set s, x | s in parts && x in s :: x
  }

  lemma SingletonsProper(ids: seq<string>)
    requires Distinct(ids)
    ensures Proper(Singletons(ids))
    ensures Parts(Singletons(ids)) == set x | x in ids :: {x}
    ensures Union(Parts(Singletons(ids))) == Elems(ids)
  {
    var groups := Singletons(ids);
    assert forall i :: 0 <= i < |groups| ==> Elems(groups[i]) == {ids[i]};
    forall x | x in ids ensures {x} in Parts(groups) {
      var i :| 0 <= i < |ids| && ids[i] == x;
      assert Elems(groups[i]) in Parts(groups);
    }
  }

  function Origin(i: nat, j: nat, k: nat): nat {
    if k < i then k else if k + 1 < j then k + 1 else k + 2
  }

  /** Where group k goes when i and j are taken out. */
  function Place(i: nat, j: nat, k: nat): int {
    if k < i then k else if k < j then k - 1 else k - 2
  }

  lemma MergedIndexed(groups: seq<Group>, i: nat, j: nat)
    requires i < j < |groups|
    ensures var merged, n := Merged(groups, i, j), |groups| - 2;
            && |merged| == n + 1 && merged[n] == groups[i] + groups[j]
            && (forall k :: 0 <= k < n ==>
                  && Origin(i, j, k) < |groups| && Origin(i, j, k) !in {i, j}
                  && merged[k] == groups[Origin(i, j, k)])
            && (forall k :: 0 <= k < |groups| && k != i && k != j ==>
                  0 <= Place(i, j, k) < n && merged[Place(i, j, k)] == groups[k])
  {
  }

  lemma DistinctConcat(g: Group, h: Group)
    requires Distinct(g) && Distinct(h) && Elems(g) !! Elems(h)
    ensures Distinct(g + h) && Elems(g + h) == Elems(g) + Elems(h)
  {
    forall k, l | 0 <= k < l < |g + h| ensures (g + h)[k] != (g + h)[l] {
      if k < |g| <= l {
        assert g[k] in Elems(g) && h[l - |g|] in Elems(h);
      }
    }
  }

  lemma {:induction false} MergedProper(groups: seq<Group>, i: nat, j: nat)
    requires Proper(groups) && i < j < |groups|
    ensures Proper(Merged(groups, i, j))
  {
    hide Merged, Elems, Distinct, Disjoint;
    MergedIndexed(groups, i, j);
    DisjointAt(groups, i, j);
    DistinctConcat(groups[i], groups[j]);
    MergedDisjoint(groups, i, j);
  }

  lemma DisjointAt(groups: seq<Group>, k: nat, l: nat)
    requires Disjoint(groups) && k < |groups| && l < |groups| && k != l
    ensures Elems(groups[k]) !! Elems(groups[l])
  {
    hide Elems;
  }

  lemma {:induction false} MergedDisjoint(groups: seq<Group>, i: nat, j: nat)
    requires Disjoint(groups) && i < j < |groups|
    ensures Disjoint(Merged(groups, i, j))
  {
    hide Merged, Elems;
    var n := |groups| - 2;
    MergedSize(groups, i, j);
    ElemsConcat(groups[i], groups[j]);
    forall k, l | 0 <= k < l <= n ensures Elems(Merged(groups, i, j)[k]) !! Elems(Merged(groups, i, j)[l]) {
      MergedAt(groups, i, j, k);
      if l < n {
        MergedAt(groups, i, j, l);
        DisjointAt(groups, Origin(i, j, k), Origin(i, j, l));
      } else {
        DisjointAt(groups, Origin(i, j, k), i);
        DisjointAt(groups, Origin(i, j, k), j);
      }
    }
  }

  lemma MergedSize(groups: seq<Group>, i: nat, j: nat)
    requires i < j < |groups|
    ensures |Merged(groups, i, j)| == |groups| - 1 && Merged(groups, i, j)[|groups| - 2] == groups[i] + groups[j]
  {
  }

  lemma MergedAt(groups: seq<Group>, i: nat, j: nat, k: nat)
    requires i < j < |groups| && k < |groups| - 2
    ensures var o := Origin(i, j, k);
            o < |groups| && o != i && o != j && |Merged(groups, i, j)| == |groups| - 1
                && Merged(groups, i, j)[k] == groups[o]
  {
  }

  lemma ElemsConcat(g: Group, h: Group)
    ensures Elems(g + h) == Elems(g) + Elems(h)
  {
  }

  lemma PartsApart(groups: seq<Group>, k: nat, l: nat)
    requires Proper(groups) && k < |groups| && l < |groups| && k != l
    ensures Elems(groups[k]) != Elems(groups[l])
  {
    assert groups[k][0] in Elems(groups[k]);
  }

  lemma MergedParts(groups: seq<Group>, i: nat, j: nat)
    requires Proper(groups) && i < j < |groups|
    ensures Parts(Merged(groups, i, j)) == MergeParts(Parts(groups), Elems(groups[i]), Elems(groups[j]))
  {
    hide Merged, Proper, Elems, Parts, MergeParts;
    forall part ensures part in MergeParts(Parts(groups), Elems(groups[i]), Elems(groups[j]))
        <==> part in Parts(Merged(groups, i, j)) {
      if part in MergeParts(Parts(groups), Elems(groups[i]), Elems(groups[j])) {
        MergedHasPart(groups, i, j, part);
      }
      if part in Parts(Merged(groups, i, j)) {
        MergedIsPart(groups, i, j, part);
      }
    }
  }

  lemma MergedHasPart(groups: seq<Group>, i: nat, j: nat, part: set<string>)
    requires Proper(groups) && i < j < |groups|
    requires part in MergeParts(Parts(groups), Elems(groups[i]), Elems(groups[j]))
    ensures part in Parts(Merged(groups, i, j))
  {
    hide Merged, Proper, Elems, Origin, Place;
    MergedIndexed(groups, i, j);
    ElemsConcat(groups[i], groups[j]);
    var merged := Merged(groups, i, j);
    if part == Elems(groups[i]) + Elems(groups[j]) {
      assert Elems(merged[|groups| - 2]) == part;
    } else {
      var k :| 0 <= k < |groups| && Elems(groups[k]) == part;
      assert Elems(merged[Place(i, j, k)]) == part;
    }
  }

  lemma MergedIsPart(groups: seq<Group>, i: nat, j: nat, part: set<string>)
    requires Proper(groups) && i < j < |groups| && part in Parts(Merged(groups, i, j))
    ensures part in MergeParts(Parts(groups), Elems(groups[i]), Elems(groups[j]))
  {
    hide Merged, Proper, Elems, Place;
    MergedIndexed(groups, i, j);
    ElemsConcat(groups[i], groups[j]);
    var merged := Merged(groups, i, j);
    var k :| 0 <= k < |merged| && Elems(merged[k]) == part;
    if k < |groups| - 2 {
      PartsApart(groups, Origin(i, j, k), i);
      PartsApart(groups, Origin(i, j, k), j);
    }
  }

  ghost function MergeParts(parts: set<set<string>>, a: set<string>, b: set<string>): set<set<string>> {
    parts - {a, b} + {a + b}
  }

  // ----- merging as a function of the partition

  lemma {:induction false} LeastExists(s: set<string>)
    requires s != {}
    ensures exists x :: IsLeast(x, s)
    decreases s
  {
    var y :| y in s;
    LessTotal(y, y);
    if s != {y} {
      var rest := s - {y};
      assert s == rest + {y};
      LeastExists(rest);
      var x :| IsLeast(x, rest);
      LessTotal(x, y);
      if Less(y, x) {
        forall z | z in s ensures !Less(z, y) {
          if Less(z, y) && z != y {
            LessTransitive(z, y, x);
          }
        }
        assert IsLeast(y, s);
      } else {
        assert IsLeast(x, s);
      }
    } else {
      assert IsLeast(y, s);
    }
  }

  ghost function Least(s: set<string>): (x: string)
    requires s != {}
    ensures IsLeast(x, s)
  {
    LeastExists(s);
    var x :| IsLeast(x, s);
    x
  }

  ghost function MergeLabel(a: set<string>, b: set<string>): string
    requires a != {} && b != {}
  {
    if Less(Least(a), Least(b)) then Join(Least(a), Least(b)) else Join(Least(b), Least(a))
  }

  ghost function MergeOffer(rho: Rho, a: set<string>, b: set<string>): Offer
    requires a != {} && b != {}
  {
    Offer(Mean(rho, a, b), MergeLabel(a, b))
  }

  /** The pair average linkage merges next: highest mean, ties to the earlier label. */
  ghost predicate Best(rho: Rho, parts: set<set<string>>, a: set<string>, b: set<string>) {
    && a in parts && b in parts && a != b && Mergeable(rho, a, b)
    && forall c, d :: c in parts && d in parts && c != d && Mergeable(rho, c, d)
         ==> !Ahead(MergeOffer(rho, c, d), MergeOffer(rho, a, b))
  }

  /** No pair of clusters may merge. */
  ghost predicate Settled(rho: Rho, parts: set<set<string>>) {
    forall a, b :: a in parts && b in parts && a != b ==> !Mergeable(rho, a, b)
  }

  ghost predicate HasBest(rho: Rho, parts: set<set<string>>) {
    exists a, b :: Best(rho, parts, a, b)
  }

  ghost function NextMerge(rho: Rho, parts: set<set<string>>): (pair: (set<string>, set<string>))
    requires HasBest(rho, parts)
    ensures Best(rho, parts, pair.0, pair.1)
  {
    var a, b :| Best(rho, parts, a, b);
    (a, b)
  }

  ghost function Merge(rho: Rho, parts: set<set<string>>): (merged: set<set<string>>)
    requires HasBest(rho, parts)
    ensures |merged| < |parts|
  {
    var (a, b) := NextMerge(rho, parts);
    MergeShrinks(parts, a, b);
    MergeParts(parts, a, b)
  }

  ghost function Agglomerate(rho: Rho, parts: set<set<string>>): set<set<string>>
    decreases |parts|
  {
    if HasBest(rho, parts) then Agglomerate(rho, Merge(rho, parts)) else parts
  }

  lemma MergeShrinks(parts: set<set<string>>, a: set<string>, b: set<string>)
    requires a in parts && b in parts && a != b
    ensures |MergeParts(parts, a, b)| < |parts|
  {
    var rest := parts - {a, b};
    assert |{a, b}| == 2;
    assert parts == rest + {a, b};
    assert |parts| == |rest| + 2;
    assert |rest + {a + b}| <= |rest| + 1;
  }

  lemma OfferSymmetric(rho: Rho, a: set<string>, b: set<string>)
    requires Symmetric(rho) && a != {} && b != {} && a !! b
    ensures Mergeable(rho, a, b) == Mergeable(rho, b, a)
    ensures MergeOffer(rho, a, b) == MergeOffer(rho, b, a)
  {
    CrossSymmetric(rho, a, b);
    assert |a| * |b| == |b| * |a|;
    assert Mean(rho, a, b) == Mean(rho, b, a);
    LessTotal(Least(a), Least(b));
    forall x, y | x in a && y in b ensures rho(x, y).Some? == rho(y, x).Some? {
    }
  }

  lemma OfferOfGroups(rho: Rho, g: Group, h: Group)
    requires Distinct(g) && Distinct(h) && g != [] && h != [] && Elems(g) !! Elems(h)
    ensures Elems(g) != {} && Elems(h) != {}
    ensures OfferOf(rho, g, h) ==
      if Mergeable(rho, Elems(g), Elems(h)) then Some(MergeOffer(rho, Elems(g), Elems(h))) else None
  {
    MeanOfGroups(rho, g, h);
    LabelIsLeast(g); LeastIsUnique(Label(g), Least(Elems(g)), Elems(g));
    LabelIsLeast(h); LeastIsUnique(Label(h), Least(Elems(h)), Elems(h));
    PairLabelSorted(g, h);
  }

  lemma OfferAtParts(rho: Rho, groups: seq<Group>, k: nat, l: nat)
    requires Symmetric(rho) && Proper(groups) && k < |groups| && l < |groups| && k != l
    ensures Elems(groups[k]) != {} && Elems(groups[l]) != {} && Elems(groups[k]) != Elems(groups[l])
    ensures var i, j := if k < l then k else l, if k < l then l else k;
            OffersIn(rho, groups)(i, j) ==
              if Mergeable(rho, Elems(groups[k]), Elems(groups[l]))
              then Some(MergeOffer(rho, Elems(groups[k]), Elems(groups[l]))) else None
  {
    var i, j := if k < l then k else l, if k < l then l else k;
    OfferOfGroups(rho, groups[i], groups[j]);
    OfferAt(rho, groups, i, j);
    OfferSymmetric(rho, Elems(groups[i]), Elems(groups[j]));
  }

  lemma {:induction false} OfferedIsNotAhead(rho: Rho, groups: seq<Group>, k: nat, l: nat)
    requires Symmetric(rho) && Proper(groups) && k < |groups| && l < |groups| && k != l
    requires Mergeable(rho, Elems(groups[k]), Elems(groups[l]))
    ensures BestPair(rho, groups).Some?
    ensures !Ahead(MergeOffer(rho, Elems(groups[k]), Elems(groups[l])), BestPair(rho, groups).value.offer)
  {
    hide Scan, OffersIn, Mergeable, MergeOffer, Ahead, Proper, Elems;
    ScanLeads(|groups|, OffersIn(rho, groups), 0, 1, None);
    OfferAtParts(rho, groups, k, l);
    var i, j := if k < l then k else l, if k < l then l else k;
    assert Before(i, j, |groups|, |groups|);
  }

  lemma {:induction false} BestPairIsBest(rho: Rho, groups: seq<Group>)
    requires Symmetric(rho) && Proper(groups)
    ensures var f := BestPair(rho, groups);
            if f == None then Settled(rho, Parts(groups))
            else Best(rho, Parts(groups), Elems(groups[f.value.i]), Elems(groups[f.value.j]))
  {
    hide Mean, Linked, MergeOffer, OffersIn, Scan, Ahead, Elems, Proper;
    var f, parts := BestPair(rho, groups), Parts(groups);
    if f.Some? {
      ScanLeads(|groups|, OffersIn(rho, groups), 0, 1, None);
      OfferAtParts(rho, groups, f.value.i, f.value.j);
    }
    forall c, d | c in parts && d in parts && c != d && Mergeable(rho, c, d)
      ensures f.Some? && !Ahead(MergeOffer(rho, c, d), f.value.offer)
    {
      var k :| 0 <= k < |groups| && Elems(groups[k]) == c;
      var l :| 0 <= l < |groups| && Elems(groups[l]) == d;
      OfferedIsNotAhead(rho, groups, k, l);
    }
  }

  ghost predicate Apart(parts: set<set<string>>) {
    && {} !in parts
    && forall a, b :: a in parts && b in parts && a != b ==> a !! b
  }

  // ----- pairs tied for best

  ghost function PairJoin(x: string, y: string): string {
    if Less(x, y) then Join(x, y) else Join(y, x)
  }

  /** No name joins with two different partners to one label. */
  ghost predicate PartnersApart(names: set<string>) {
    forall x, y, z :: (x in names && y in names && z in names && x != y && x != z && PairJoin(x, y) == PairJoin(x, z))
        ==> y == z
  }

  lemma SameBestOffer(rho: Rho, parts: set<set<string>>, a: set<string>, b: set<string>, c: set<string>, d: set<string>)
    requires Apart(parts) && Best(rho, parts, a, b) && Best(rho, parts, c, d)
    ensures MergeOffer(rho, a, b) == MergeOffer(rho, c, d)
  {
    hide Mean, Mergeable, MergeLabel;
    LessTotal(MergeLabel(a, b), MergeLabel(c, d));
    assert !Ahead(MergeOffer(rho, a, b), MergeOffer(rho, c, d)) && !Ahead(MergeOffer(rho, c, d), MergeOffer(rho, a, b));
  }

  lemma BestSymmetric(rho: Rho, parts: set<set<string>>, a: set<string>, b: set<string>)
    requires Symmetric(rho) && Apart(parts) && Best(rho, parts, a, b)
    ensures Best(rho, parts, b, a)
  {
    hide Mean, MergeLabel, Mergeable;
    OfferSymmetric(rho, a, b);
  }

  lemma LeastApart(parts: set<set<string>>, a: set<string>, b: set<string>)
    requires Apart(parts) && a in parts && b in parts
    ensures a != {} && b != {} && Least(a) in Union(parts) && (a == b <==> Least(a) == Least(b))
  {
  }

  /** Two best pairs with a cluster in common are one pair. */
  lemma BestShares(rho: Rho, parts: set<set<string>>, a: set<string>, b: set<string>, d: set<string>)
    requires Apart(parts) && PartnersApart(Union(parts)) && Best(rho, parts, a, b) && Best(rho, parts, a, d)
    ensures b == d
  {
    hide Mean, Mergeable, Union;
    SameBestOffer(rho, parts, a, b, a, d);
    LeastApart(parts, a, b); LeastApart(parts, a, d); LeastApart(parts, b, d); LeastApart(parts, d, b);
    assert MergeLabel(a, b) == PairJoin(Least(a), Least(b)) && MergeLabel(a, d) == PairJoin(Least(a), Least(d));
  }

  /** Two best pairs are one pair, or have nothing in common. */
  lemma BestTies(rho: Rho, parts: set<set<string>>, a: set<string>, b: set<string>, c: set<string>, d: set<string>)
    requires Symmetric(rho) && Apart(parts) && PartnersApart(Union(parts))
    requires Best(rho, parts, a, b) && Best(rho, parts, c, d)
    ensures {a, b} == {c, d} || {a, b} !! {c, d}
  {
    hide Mean, Mergeable, Union, PartnersApart, Best;
    BestSymmetric(rho, parts, a, b);
    BestSymmetric(rho, parts, c, d);
    if a == c { BestShares(rho, parts, a, b, d); }
    if a == d { BestShares(rho, parts, a, b, c); }
    if b == c { BestShares(rho, parts, b, a, d); }
    if b == d { BestShares(rho, parts, b, a, c); }
  }

  lemma {:induction false} SetSumJoin(s: set<string>, t: set<string>, f: string -> real)
    requires s !! t
    ensures SetSum(s + t, f) == SetSum(s, f) + SetSum(t, f)
    decreases s
  {
    if s == {} {
      assert s + t == t;
    } else {
      var x :| x in s;
      SetSumTake(s, f, x);
      SetSumTake(s + t, f, x);
      SetSumJoin(s - {x}, t, f);
      assert s + t - {x} == (s - {x}) + t;
    }
  }

  /** The mean over a union lies between the means over its halves. */
  lemma {:induction false} MeanOfUnion(rho: Rho, a: set<string>, b: set<string>, t: set<string>, v: real)
    requires a != {} && b != {} && t != {} && a !! b && Mean(rho, a, t) <= v && Mean(rho, b, t) <= v
    ensures a + b != {} && Mean(rho, a + b, t) <= v
    ensures Mean(rho, a + b, t) == v ==> Mean(rho, a, t) == v && Mean(rho, b, t) == v
  {
    hide SetSum, RowTotal;
    SetSumJoin(a, b, RowTotal(rho, t));
    var m, n := |a| * |t|, |b| * |t|;
    CountsMultiply(a, t); CountsMultiply(b, t);
    assert |a + b| * |t| == m + n;
    Weighted(Cross(rho, a, t), m, Cross(rho, b, t), n, v);
  }

  lemma CountsMultiply(s: set<string>, t: set<string>)
    requires s != {} && t != {}
    ensures |s| * |t| > 0
  {
    assert |s| > 0 && |t| > 0;
  }

  lemma Weighted(x: real, m: int, y: real, n: int, v: real)
    requires m > 0 && n > 0 && x / m as real <= v && y / n as real <= v
    ensures (x + y) / (m + n) as real <= v
    ensures (x + y) / (m + n) as real == v ==> x / m as real == v && y / n as real == v
  {
    AtMost(x, m as real, v);
    AtMost(y, n as real, v);
    AtMost(x + y, (m + n) as real, v);
    assert (m + n) as real == m as real + n as real;
    Distributed(m as real, n as real, v);
  }

  lemma AtMost(x: real, n: real, v: real)
    requires n > 0.0
    ensures x / n <= v <==> x <= n * v
    ensures x / n == v <==> x == n * v
  {
    QuotientTimes(x, n);
    FactorKeepsOrder(n, x / n, v);
    FactorKeepsOrder(n, v, x / n);
  }

  lemma Distributed(m: real, n: real, v: real)
    ensures (m + n) * v == m * v + n * v
  {
  }

  lemma LeastOfUnion(a: set<string>, b: set<string>)
    requires a != {} && b != {}
    ensures a + b != {} && (Least(a + b) == Least(a) || Least(a + b) == Least(b))
  {
    var x := Least(a + b);
    if x in a {
      LeastIsUnique(x, Least(a), a);
    } else {
      LeastIsUnique(x, Least(b), b);
    }
  }

  /** What a merged cluster offers is not ahead of a pair that was as good as its own. */
  lemma {:induction false} UnionNotAhead(rho: Rho, parts: set<set<string>>, a: set<string>, b: set<string>,
      t: set<string>)
    requires Apart(parts) && Best(rho, parts, a, b) && t in parts && t != a && t != b
    requires a + b != {} && t != {} && Mergeable(rho, a + b, t)
    ensures !Ahead(MergeOffer(rho, a + b, t), MergeOffer(rho, a, b))
  {
    var best := MergeOffer(rho, a, b);
    HalfNotAhead(rho, parts, a, b, a, t);
    HalfNotAhead(rho, parts, a, b, b, t);
    MeanOfUnion(rho, a, b, t, best.value);
    LeastOfUnion(a, b);
    LessTotal(Least(a), Least(t)); LessTotal(Least(b), Least(t));
    hide Mean, Best, Apart, Less, Linked;
  }

  lemma HalfNotAhead(rho: Rho, parts: set<set<string>>, a: set<string>, b: set<string>, half: set<string>,
      t: set<string>)
    requires Apart(parts) && Best(rho, parts, a, b) && half in {a, b} && t in parts && t != a && t != b
    requires Linked(rho, a + b, t)
    ensures half != {} && t != {} && Mean(rho, half, t) <= Mean(rho, a, b)
    ensures Mean(rho, half, t) == Mean(rho, a, b) ==> !Less(MergeLabel(half, t), MergeLabel(a, b))
  {
    hide Mean, MergeLabel, Less;
    assert Linked(rho, half, t);
    if Mean(rho, half, t) >= CLUSTER_RHO {
      assert Mergeable(rho, half, t) && half in parts;
      assert !Ahead(MergeOffer(rho, half, t), MergeOffer(rho, a, b));
    }
  }

  /** A best pair with nothing in common with the pair merged stays best. */
  lemma {:induction false} StillBest(rho: Rho, parts: set<set<string>>, a: set<string>, b: set<string>,
      c: set<string>, d: set<string>)
    requires Symmetric(rho) && Apart(parts) && Best(rho, parts, a, b) && Best(rho, parts, c, d) && {a, b} !! {c, d}
    ensures Best(rho, MergeParts(parts, a, b), c, d)
  {
    hide Mean, MergeLabel, Ahead, Linked;
    SameBestOffer(rho, parts, a, b, c, d);
    var merged := MergeParts(parts, a, b);
    forall x, y | x in merged && y in merged && x != y && Mergeable(rho, x, y)
      ensures !Ahead(MergeOffer(rho, x, y), MergeOffer(rho, c, d))
    {
      if x == a + b {
        OtherPart(parts, a, b, y);
        UnionNotAhead(rho, parts, a, b, y);
      } else if y == a + b {
        OtherPart(parts, a, b, x);
        OfferSymmetric(rho, a + b, x);
        UnionNotAhead(rho, parts, a, b, x);
      } else {
        assert x in parts && y in parts;
      }
    }
  }

  lemma OtherPart(parts: set<set<string>>, a: set<string>, b: set<string>, t: set<string>)
    requires Apart(parts) && a in parts && b in parts && t in MergeParts(parts, a, b) && t != a + b
    ensures t in parts && t != a && t != b && t !! a + b && t != {}
  {
  }

  lemma MergedApart(parts: set<set<string>>, a: set<string>, b: set<string>)
    requires Apart(parts) && a in parts && b in parts
    ensures Apart(MergeParts(parts, a, b))
  {
    assert a != {};
    var x :| x in a;
    assert x in a + b;
  }

  /** Disjoint merges commute. */
  lemma MergesCommute(parts: set<set<string>>, a: set<string>, b: set<string>, c: set<string>, d: set<string>)
    requires Apart(parts) && a in parts && b in parts && c in parts && d in parts && a != b && c != d
            && {a, b} !! {c, d}
    ensures MergeParts(MergeParts(parts, a, b), c, d) == MergeParts(MergeParts(parts, c, d), a, b)
  {
    assert a != {} && c != {};
    var x :| x in a;
    var y :| y in c;
    assert x in a + b && x !in c && x !in d && y in c + d && y !in a && y !in b;
  }

  /** Whichever best pair is merged first, the end is the same. */
  lemma {:induction false} AnyBestWillDo(rho: Rho, parts: set<set<string>>, a: set<string>, b: set<string>)
    requires Symmetric(rho) && Apart(parts) && PartnersApart(Union(parts)) && Best(rho, parts, a, b)
    ensures Agglomerate(rho, MergeParts(parts, a, b)) == Agglomerate(rho, parts)
    decreases |parts|
  {
    hide Mergeable, Ahead, PartnersApart, Union, MergeParts, Apart;
    var (c, d) := NextMerge(rho, parts);
    BestTies(rho, parts, a, b, c, d);
    AgglomerateStep(rho, parts);
    if {a, b} == {c, d} {
      SamePairSameMerge(parts, a, b, c, d);
    } else {
      var left, right := MergeParts(parts, a, b), MergeParts(parts, c, d);
      StillBest(rho, parts, a, b, c, d);
      StillBest(rho, parts, c, d, a, b);
      MergedApart(parts, a, b); MergedApart(parts, c, d);
      MergeKeepsUnion(parts, a, b); MergeKeepsUnion(parts, c, d);
      MergeShrinks(parts, a, b); MergeShrinks(parts, c, d);
      AnyBestWillDo(rho, left, c, d);
      AnyBestWillDo(rho, right, a, b);
      MergesCommute(parts, a, b, c, d);
    }
  }

  lemma AgglomerateStep(rho: Rho, parts: set<set<string>>)
    requires HasBest(rho, parts)
    ensures Agglomerate(rho, parts)
            == Agglomerate(rho, MergeParts(parts, NextMerge(rho, parts).0, NextMerge(rho, parts).1))
  {
  }

  lemma SamePairSameMerge(parts: set<set<string>>, a: set<string>, b: set<string>, c: set<string>, d: set<string>)
    requires {a, b} == {c, d}
    ensures MergeParts(parts, a, b) == MergeParts(parts, c, d)
  {
    assert a in {c, d} && b in {c, d} && c in {a, b} && d in {a, b};
    assert a + b == c + d;
  }

  lemma ProperIsApart(groups: seq<Group>)
    requires Proper(groups)
    ensures Apart(Parts(groups))
  {
    forall i | 0 <= i < |groups| ensures groups[i][0] in Elems(groups[i]) {
    }
  }

  lemma MergeKeepsUnion(parts: set<set<string>>, a: set<string>, b: set<string>)
    requires a in parts && b in parts
    ensures Union(MergeParts(parts, a, b)) == Union(parts)
  {
    forall x | x in Union(parts) ensures x in Union(MergeParts(parts, a, b)) {
      var s :| s in parts && x in s;
      assert a + b in MergeParts(parts, a, b);
      assert s in MergeParts(parts, a, b) || x in a + b;
    }
  }

  lemma SettledHasNoBest(rho: Rho, parts: set<set<string>>)
    requires Settled(rho, parts)
    ensures !HasBest(rho, parts)
  {
  }

  lemma NextPartition(rho: Rho, groups: seq<Group>)
    requires Symmetric(rho) && Proper(groups) && BestPair(rho, groups).Some?
    ensures var f := BestPair(rho, groups).value;
            var merged, a, b := Merged(groups, f.i, f.j), Elems(groups[f.i]), Elems(groups[f.j]);
            && Proper(merged) && Union(Parts(merged)) == Union(Parts(groups))
            && Best(rho, Parts(groups), a, b) && Parts(merged) == MergeParts(Parts(groups), a, b)
  {
    var f := BestPair(rho, groups).value;
    BestPairIsBest(rho, groups);
    MergedProper(groups, f.i, f.j);
    MergedParts(groups, f.i, f.j);
    MergeKeepsUnion(Parts(groups), Elems(groups[f.i]), Elems(groups[f.j]));
  }

  /** The run on sequences ends where merging sets of names ends. */
  lemma {:induction false} SettleAgglomerates(rho: Rho, groups: seq<Group>)
    requires Symmetric(rho) && Proper(groups) && PartnersApart(Union(Parts(groups)))
    ensures Parts(Settle(rho, groups)) == Agglomerate(rho, Parts(groups))
    decreases |groups|
  {
    hide Proper, Parts, Union, PartnersApart, Best, Settled, HasBest, Merge, MergeParts, Elems;
    var f := BestPair(rho, groups);
    if f.Some? {
      NextPartition(rho, groups);
      ProperIsApart(groups);
      SettleAgglomerates(rho, Merged(groups, f.value.i, f.value.j));
      AnyBestWillDo(rho, Parts(groups), Elems(groups[f.value.i]), Elems(groups[f.value.j]));
    } else {
      BestPairIsBest(rho, groups);
      SettledHasNoBest(rho, Parts(groups));
    }
  }

  // ----- the results

  /** The clusters a run ends with. */
  ghost function Clusters(ids: seq<string>, rho: Rho): set<set<string>> {
    Parts(Settle(rho, Singletons(ids)))
  }

  /** Any two different names of a cluster have a correlation. */
  ghost predicate Cohesive(rho: Rho, groups: seq<Group>) {
    forall i, a, b :: 0 <= i < |groups| && a in groups[i] && b in groups[i] && a != b ==> rho(a, b).Some?
  }

  lemma MergedCohesive(rho: Rho, groups: seq<Group>, i: nat, j: nat)
    requires Symmetric(rho) && Cohesive(rho, groups) && i < j < |groups| && AllDefined(rho, groups[i], groups[j])
    ensures Cohesive(rho, Merged(groups, i, j))
  {
    MergedIndexed(groups, i, j);
    var merged, n := Merged(groups, i, j), |groups| - 2;
    forall k, a, b | 0 <= k < |merged| && a in merged[k] && b in merged[k] && a != b ensures rho(a, b).Some? {
      if k == n {
        assert rho(a, b) == rho(b, a);
      } else {
        assert merged[k] == groups[Origin(i, j, k)];
      }
    }
  }

  lemma BestIsLinked(rho: Rho, groups: seq<Group>)
    requires Symmetric(rho) && Proper(groups) && BestPair(rho, groups).Some?
    ensures var f := BestPair(rho, groups).value;
            var a, b := Elems(groups[f.i]), Elems(groups[f.j]);
            a in Parts(groups) && b in Parts(groups) && Linked(rho, a, b)
  {
    BestPairIsBest(rho, groups);
  }

  lemma NextIsSound(rho: Rho, groups: seq<Group>)
    requires Symmetric(rho) && Proper(groups) && Cohesive(rho, groups) && BestPair(rho, groups).Some?
    ensures var f := BestPair(rho, groups).value;
            var merged := Merged(groups, f.i, f.j);
            Proper(merged) && Cohesive(rho, merged) && Union(Parts(merged)) == Union(Parts(groups))
  {
    hide Best, BestPair, Union, MergeParts, Parts, Cohesive, Proper;
    var f := BestPair(rho, groups).value;
    BestIsLinked(rho, groups);
    assert Linked(rho, Elems(groups[f.i]), Elems(groups[f.j]));
    assert AllDefined(rho, groups[f.i], groups[f.j]);
    MergedProper(groups, f.i, f.j);
    MergedParts(groups, f.i, f.j);
    MergeKeepsUnion(Parts(groups), Elems(groups[f.i]), Elems(groups[f.j]));
    MergedCohesive(rho, groups, f.i, f.j);
  }

  /** What a finished run has kept and what it leaves. */
  ghost predicate SoundEnd(rho: Rho, start: seq<Group>, end: seq<Group>) {
    Proper(end) && Cohesive(rho, end) && Settled(rho, Parts(end)) && Union(Parts(end)) == Union(Parts(start))
  }

  lemma {:induction false} SettleResult(rho: Rho, groups: seq<Group>)
    requires Symmetric(rho) && Proper(groups) && Cohesive(rho, groups)
    ensures SoundEnd(rho, groups, Settle(rho, groups))
    decreases |groups|
  {
    var f := BestPair(rho, groups);
    if f.Some? {
      NextIsSound(rho, groups);
      SettleResult(rho, Merged(groups, f.value.i, f.value.j));
    } else {
      BestPairIsBest(rho, groups);
    }
  }

  lemma {:induction false} AssignDefines(group: Group, name: string, out: map<string, string>)
    ensures Assign(group, name, out).Keys == out.Keys + Elems(group)
    ensures forall x ::
            x in Assign(group, name, out) ==> Assign(group, name, out)[x] == if x in group then name else out[x]
  {
    if group != [] {
      var n := |group| - 1;
      AssignDefines(group[..n], name, out);
      assert forall x :: x in group <==> x in group[..n] || x == group[n];
    }
  }

  /** Each name of each cluster carries the cluster's least member. */
  ghost predicate Labelled(parts: set<set<string>>, out: map<string, string>) {
    && out.Keys == Union(parts)
    && forall part, x :: part in parts && x in part ==> x in out && IsLeast(out[x], part)
  }

  lemma PartsOfPrefix(groups: seq<Group>)
    requires groups != [] && Proper(groups)
    ensures var n := |groups| - 1;
            && Proper(groups[..n]) && Parts(groups) == Parts(groups[..n]) + {Elems(groups[n])}
            && forall part :: part in Parts(groups[..n]) ==> part !! Elems(groups[n])
  {
    var n := |groups| - 1;
    forall part | part in Parts(groups[..n]) ensures part !! Elems(groups[n]) {
      var i :| 0 <= i < n && Elems(groups[..n][i]) == part;
    }
    forall i | 0 <= i < n ensures Elems(groups[i]) in Parts(groups[..n]) {
      assert groups[..n][i] == groups[i];
    }
  }

  lemma {:induction false} LabelsDefine(groups: seq<Group>)
    requires Proper(groups)
    ensures Labelled(Parts(groups), Labels(groups))
  {
    if groups != [] {
      var n := |groups| - 1;
      PartsOfPrefix(groups);
      LabelsDefine(groups[..n]);
      AssignDefines(groups[n], Label(groups[n]), Labels(groups[..n]));
      LabelIsLeast(groups[n]);
      LabelledAppend(Parts(groups[..n]), Labels(groups[..n]), Elems(groups[n]), Label(groups[n]), Labels(groups));
    }
  }

  lemma LabelledAppend(parts: set<set<string>>, out: map<string, string>, part: set<string>, name: string,
      next: map<string, string>)
    requires Labelled(parts, out) && IsLeast(name, part) && forall p :: p in parts ==> p !! part
    requires next.Keys == out.Keys + part && forall x :: x in next ==> next[x] == if x in part then name else out[x]
    ensures Labelled(parts + {part}, next)
  {
    hide IsLeast;
    assert Union(parts + {part}) == Union(parts) + part;
  }

  /** Names that share a cluster have a correlation. */
  ghost predicate CorrelatedWithin(rho: Rho, parts: set<set<string>>) {
    forall part, x, y :: part in parts && x in part && y in part && x != y ==> rho(x, y).Some?
  }

  lemma CohesiveParts(rho: Rho, groups: seq<Group>)
    requires Cohesive(rho, groups)
    ensures CorrelatedWithin(rho, Parts(groups))
  {
    forall part, x, y | part in Parts(groups) && x in part && y in part && x != y ensures rho(x, y).Some? {
      var i :| 0 <= i < |groups| && Elems(groups[i]) == part;
      assert x in groups[i] && y in groups[i];
    }
  }

  ghost function Names(ids: seq<string>, rho: Rho): map<string, string> {
    Labels(Settle(rho, Singletons(ids)))
  }

  /**
   * Every name is in exactly one cluster and is labelled with that cluster's least member; names
   * that share a cluster have a correlation; no two clusters could still merge.
   */
  lemma ClusterResult(ids: seq<string>, rho: Rho)
    requires Distinct(ids) && Symmetric(rho)
    ensures var parts := Clusters(ids, rho);
            && Apart(parts) && Union(parts) == Elems(ids)
            && Labelled(parts, Names(ids, rho)) && CorrelatedWithin(rho, parts) && Settled(rho, parts)
  {
    SingletonsProper(ids);
    SettleResult(rho, Singletons(ids));
    var groups := Settle(rho, Singletons(ids));
    ProperIsApart(groups);
    LabelsDefine(groups);
    CohesiveParts(rho, groups);
  }

  lemma SameNamesSameParts(ids: seq<string>, shuffled: seq<string>)
    requires Distinct(ids) && Distinct(shuffled) && Elems(ids) == Elems(shuffled)
    ensures Parts(Singletons(ids)) == Parts(Singletons(shuffled))
  {
    SingletonsProper(ids);
    SingletonsProper(shuffled);
    assert forall x :: x in ids <==> x in Elems(ids);
    assert forall x :: x in shuffled <==> x in Elems(shuffled);
  }

  lemma LabelledIsUnique(parts: set<set<string>>, out: map<string, string>, other: map<string, string>)
    requires Labelled(parts, out) && Labelled(parts, other)
    ensures out == other
  {
    hide IsLeast;
    forall x | x in out ensures out[x] == other[x] {
      var part :| part in parts && x in part;
      LeastIsUnique(out[x], other[x], part);
    }
  }

  /** The order of the input does not matter: neither the clusters nor any label depends on it. */
  lemma OrderDoesNotMatter(ids: seq<string>, shuffled: seq<string>, rho: Rho)
    requires Distinct(ids) && Distinct(shuffled) && Elems(ids) == Elems(shuffled)
    requires Symmetric(rho) && PartnersApart(Elems(ids))
    ensures Clusters(ids, rho) == Clusters(shuffled, rho)
    ensures Names(ids, rho) == Names(shuffled, rho)
  {
    SingletonsProper(ids);
    SingletonsProper(shuffled);
    SameNamesSameParts(ids, shuffled);
    SettleAgglomerates(rho, Singletons(ids));
    SettleAgglomerates(rho, Singletons(shuffled));
    ClusterResult(ids, rho);
    ClusterResult(shuffled, rho);
    LabelledIsUnique(Clusters(ids, rho), Names(ids, rho), Names(shuffled, rho));
  }
}
