/** What the mean correlation is, told from single names and unions, and when two names join. */
module LinkageMeans {
  import opened Basics
  import opened Sorting
  import opened AverageLinkage
  import opened LinkageOrder

  /** Between single names it is their correlation. */
  lemma {:induction false} MeanOfNames(rho: Rho, a: string, b: string)
    ensures MeanRho(rho, [a], [b]) == rho(a, b)
  {
    assert [a][..0] == [] && [b][..0] == [];
    SumOne(a, RowOf(rho, [b]));
    SumOne(b, CellOf(rho, a));
    assert |[a]| * |[b]| == 1 && a in [a] && b in [b];
  }

  /** There is one exactly when both groups have members and every pair across them has a correlation. */
  lemma MeanExists(rho: Rho, left: Group, right: Group)
    ensures MeanRho(rho, left, right).Some?
       <==> left != [] && right != [] && forall a, b :: a in left && b in right ==> rho(a, b).Some?
  {
    assert |left| * |right| == 0 <==> left == [] || right == [];
  }

  lemma {:induction false} SumOfSums(xs: Group, f: string -> real, g: string -> real, h: string -> real)
    requires forall x :: x in xs ==> h(x) == f(x) + g(x)
    ensures Sum(xs, h) == Sum(xs, f) + Sum(xs, g)
  {
    if xs != [] {
      var n := |xs| - 1;
      assert xs[n] in xs && forall x :: x in xs[..n] ==> x in xs;
      SumOfSums(xs[..n], f, g, h);
    }
  }

  /** The mean times the number of pairs. */
  lemma {:induction false} MeanTimesPairs(rho: Rho, left: Group, right: Group)
    requires left != [] && right != [] && AllDefined(rho, left, right)
    ensures MeanRho(rho, left, right).Some?
    ensures MeanRho(rho, left, right).value * (|left| * |right|) as real == Sum(left, RowOf(rho, right))
  {
    hide Sum, RowOf, AllDefined;
    var pairs := |left| * |right|;
    assert pairs != 0;
    QuotientTimes(Sum(left, RowOf(rho, right)), pairs as real);
  }

  lemma {:induction false} MeanOfUnion(rho: Rho, g: Group, h: Group, t: Group)
    requires g != [] && h != [] && t != []
    ensures MeanRho(rho, g + h, t).Some? <==> MeanRho(rho, g, t).Some? && MeanRho(rho, h, t).Some?
    ensures MeanRho(rho, g + h, t).Some?
       ==> MeanRho(rho, g + h, t).value * ((|g| + |h|) * |t|) as real
           == MeanRho(rho, g, t).value * (|g| * |t|) as real + MeanRho(rho, h, t).value * (|h| * |t|) as real
    ensures MeanRho(rho, t, g + h).Some? <==> MeanRho(rho, t, g).Some? && MeanRho(rho, t, h).Some?
    ensures MeanRho(rho, t, g + h).Some?
       ==> MeanRho(rho, t, g + h).value * (|t| * (|g| + |h|)) as real
           == MeanRho(rho, t, g).value * (|t| * |g|) as real + MeanRho(rho, t, h).value * (|t| * |h|) as real
  {
    hide MeanRho;
    UnionOnLeft(rho, g, h, t);
    UnionOnRight(rho, g, h, t);
  }

  lemma {:induction false} UnionOnLeft(rho: Rho, g: Group, h: Group, t: Group)
    requires g != [] && h != [] && t != []
    ensures MeanRho(rho, g + h, t).Some? <==> MeanRho(rho, g, t).Some? && MeanRho(rho, h, t).Some?
    ensures MeanRho(rho, g + h, t).Some?
       ==> MeanRho(rho, g + h, t).value * ((|g| + |h|) * |t|) as real
           == MeanRho(rho, g, t).value * (|g| * |t|) as real + MeanRho(rho, h, t).value * (|h| * |t|) as real
  {
    hide MeanRho, Sum, RowOf;
    MeanExists(rho, g, t); MeanExists(rho, h, t); MeanExists(rho, g + h, t);
    if MeanRho(rho, g + h, t).Some? {
      MeanTimesPairs(rho, g, t);
      MeanTimesPairs(rho, h, t);
      MeanTimesPairs(rho, g + h, t);
      SumConcat(g, h, RowOf(rho, t));
    }
  }

  lemma {:induction false} UnionOnRight(rho: Rho, g: Group, h: Group, t: Group)
    requires g != [] && h != [] && t != []
    ensures MeanRho(rho, t, g + h).Some? <==> MeanRho(rho, t, g).Some? && MeanRho(rho, t, h).Some?
    ensures MeanRho(rho, t, g + h).Some?
       ==> MeanRho(rho, t, g + h).value * (|t| * (|g| + |h|)) as real
           == MeanRho(rho, t, g).value * (|t| * |g|) as real + MeanRho(rho, t, h).value * (|t| * |h|) as real
  {
    hide MeanRho, Sum, CellOf;
    MeanExists(rho, t, g); MeanExists(rho, t, h); MeanExists(rho, t, g + h);
    if MeanRho(rho, t, g + h).Some? {
      MeanTimesPairs(rho, t, g);
      MeanTimesPairs(rho, t, h);
      MeanTimesPairs(rho, t, g + h);
      forall a | a in t ensures RowOf(rho, g + h)(a) == RowOf(rho, g)(a) + RowOf(rho, h)(a) {
        SumConcat(g, h, CellOf(rho, a));
      }
      SumOfSums(t, RowOf(rho, g), RowOf(rho, h), RowOf(rho, g + h));
    }
  }

  lemma BestOfTwo(rho: Rho, g: Group, h: Group)
    ensures BestPair(rho, [g, h])
         == if OfferOf(rho, g, h) == None then None else Some(Found(0, 1, OfferOf(rho, g, h).value))
  {
    hide OfferOf;
    var offers := OffersIn(rho, [g, h]);
    ScanSteps(2, offers, 0, 1, None);
    var best := Consider(offers(0, 1), 0, 1, None);
    ScanSteps(2, offers, 0, 2, best);
    ScanSteps(2, offers, 1, 3, best);
  }

  /** What may merge at all: two groups with a mean of 0.80 or more. */
  ghost predicate MayMerge(rho: Rho, left: Group, right: Group) {
    MeanRho(rho, left, right).Some? && MeanRho(rho, left, right).value >= 0.8
  }

  ghost predicate IsOffered(n: nat, offers: Offers, f: Found) {
    f.i < f.j < n && offers(f.i, f.j) == Some(f.offer)
  }

  lemma {:induction false} ScanFindsHighest(n: nat, offers: Offers, i: nat, j: nat, best: Option<Found>)
    requires i < j
    ensures var f := Scan(n, offers, i, j, best);
            && (best.Some? ==> f.Some? && f.value.offer.value >= best.value.offer.value)
            && (f.Some? ==> f == best || IsOffered(n, offers, f.value))
            && forall k: nat, l: nat :: k < l < n && (i < k || (i == k && j <= l)) && offers(k, l).Some? ==>
                 f.Some? && offers(k, l).value.value <= f.value.offer.value
    decreases n - i, n - j
  {
    if i < n {
      if j >= n {
        ScanFindsHighest(n, offers, i + 1, i + 2, best);
      } else {
        ScanFindsHighest(n, offers, i, j + 1, Consider(offers(i, j), i, j, best));
      }
    }
  }

  /** The pair picked may merge and no pair has a higher mean; none is picked only when no pair may merge. */
  lemma {:induction false} HighestIsPicked(rho: Rho, groups: seq<Group>)
    ensures var f := BestPair(rho, groups);
            && (f.Some? ==> f.value.i < f.value.j < |groups| && MayMerge(rho, groups[f.value.i], groups[f.value.j]))
            && forall k: nat, l: nat :: k < l < |groups| && MayMerge(rho, groups[k], groups[l]) ==>
                 && f.Some?
                 && MeanRho(rho, groups[k], groups[l]).value
                    <= MeanRho(rho, groups[f.value.i], groups[f.value.j]).value
  {
    hide MeanRho, Scan, PairLabel;
    var offers := OffersIn(rho, groups);
    ScanFindsHighest(|groups|, offers, 0, 1, None);
    var f := BestPair(rho, groups);
    forall k: nat, l: nat | k < l < |groups| && MayMerge(rho, groups[k], groups[l])
      ensures f.Some? && MeanRho(rho, groups[k], groups[l]).value
                         <= MeanRho(rho, groups[f.value.i], groups[f.value.j]).value {
      assert offers(k, l).Some?;
    }
  }

  lemma {:induction false} LabelOfOne(a: string)
    ensures Label([a]) == a
  {
    assert [a][..0] == [];
  }

  lemma AssignOne(a: string, name: string, out: map<string, string>)
    ensures Assign([a], name, out) == out[a := name]
  {
    assert [a][..0] == [];
  }

  lemma {:induction false} LabelsOfTwo(a: string, b: string)
    requires a != b
    ensures Labels([[a], [b]]) == map[a := a, b := b]
    ensures Labels([[a] + [b]]) == map[a := Label([a, b]), b := Label([a, b])]
  {
    hide Label, Assign;
    LabelOfOne(a); LabelOfOne(b);
    var none: map<string, string> := map[];
    assert [[a], [b]][..1] == [[a]] && [[a]][..0] == [];
    AssignOne(a, a, none);
    AssignOne(b, b, none[a := a]);
    assert Labels([[a]]) == none[a := a];
    LabelsOfPair(a, b);
  }

  lemma {:induction false} LabelsOfPair(a: string, b: string)
    ensures Labels([[a] + [b]]) == map[a := Label([a, b]), b := Label([a, b])]
  {
    hide Label;
    var name := Label([a, b]);
    assert [[a, b]][..0] == [] && [a] + [b] == [a, b] && [a, b][..1] == [a];
    AssignOne(a, name, map[]);
    assert Assign([a, b], name, map[]) == Assign([a], name, map[])[b := name];
  }

  /** Two names end in one cluster if and only if they have a correlation and it is 0.80 or more. */
  lemma {:induction false} TwoNamesJoin(rho: Rho, a: string, b: string)
    requires a != b
    ensures var out := Names([a, b], rho);
            && out.Keys == {a, b}
            && (out[a] == out[b] <==> rho(a, b).Some? && rho(a, b).value >= 0.8)
  {
    hide Labels, Label, MeanRho, BestPair, PairLabel;
    var groups := Singletons([a, b]);
    assert groups == [[a], [b]];
    MeanOfNames(rho, a, b);
    BestOfTwo(rho, [a], [b]);
    LabelsOfTwo(a, b);
    if OfferOf(rho, [a], [b]).Some? {
      var merged := Merged(groups, 0, 1);
      assert merged == [[a] + [b]];
      OneGroupSettled(rho, [a] + [b]);
    }
  }

  lemma OneGroupSettled(rho: Rho, g: Group)
    ensures Settle(rho, [g]) == [g]
  {
    hide OfferOf;
    ScanSteps(1, OffersIn(rho, [g]), 0, 1, None);
  }
}
