/** Exactly when average linkage ignores the order of its input. */
module LinkageExact {
  import opened Basics
  import opened Sorting
  import opened AverageLinkage
  import opened LinkageOrder

  ghost predicate Lists(ids: seq<string>, names: set<string>) {
    Distinct(ids) && Elems(ids) == names
  }

  ghost predicate SameEitherWay(ids: seq<string>, shuffled: seq<string>, rho: Rho) {
    Clusters(ids, rho) == Clusters(shuffled, rho)
  }

  /** Every two listings of the names give the same clusters, whatever the correlations. */
  ghost predicate OrderFree(names: set<string>) {
    forall ids: seq<string>, shuffled: seq<string>, rho: Rho ::
      Lists(ids, names) && Lists(shuffled, names) && Symmetric(rho) ==> SameEitherWay(ids, shuffled, rho)
  }

  // ----- names without a NUL

  lemma JoinsDiffer(a: string, b: string, c: string, d: string)
    requires Join(a, b) == Join(c, d) && '\0' !in a && '\0' !in c
    ensures a == c && b == d
  {
    FirstNul(a, b, c, d);
    FirstNul(c, d, a, b);
    var s := Join(a, b);
    assert a == s[..|a|] && c == s[..|c|] && b == s[|a| + 1..] && d == s[|c| + 1..];
  }

  lemma FirstNul(a: string, b: string, c: string, d: string)
    requires Join(a, b) == Join(c, d) && '\0' !in c
    ensures |c| <= |a|
  {
    var s := Join(c, d);
    forall k | 0 <= k < |c| ensures s[k] != '\0' {
      assert s[k] == c[k] && c[k] in c;
    }
    assert Join(a, b)[|a|] == '\0';
  }

  /** Names without a NUL never tie. */
  lemma {:induction false} NulFreeNamesAreApart(names: set<string>)
    requires forall x :: x in names ==> '\0' !in x
    ensures PartnersApart(names)
  {
    hide Join, Less;
    forall x, y, z | x in names && y in names && z in names && x != y && x != z && PairJoin(x, y) == PairJoin(x, z)
      ensures y == z {
      JoinsDiffer(if Less(x, y) then x else y, if Less(x, y) then y else x, if Less(x, z) then x else z,
          if Less(x, z) then z else x);
    }
  }

  /** Names with one can. */
  lemma NamesThatTie()
    ensures !PartnersApart({"a\0b\0a", "b\0a", "a\0b"})
  {
    var p, q, r := "a\0b\0a", "b\0a", "a\0b";
    assert p[1..] == "\0b\0a" && r[1..] == "\0b";
    assert p[2..] == "b\0a" && r[2..] == "b" && p[1..][1..] == p[2..] && r[1..][1..] == r[2..];
    assert r[2..][1..] == "" && p[2..][1..] == "\0a";
    LessTotal(p, r);
    assert PairJoin(p, q) == PairJoin(p, r) && p != q && p != r && q != r;
  }

  // ----- two partners for one name

  /** p goes equally well with q and with r; nothing else has a correlation. */
  function TwoWays(p: string, q: string, r: string): Rho {
    (x: string, y: string) => if (x == p && y in {q, r}) || (y == p && x in {q, r}) then Some(0.9) else None
  }

  lemma MeanOfTwo(p: string, q: string, r: string, x: string, y: string)
    requires p != q && p != r && x != y
    ensures MeanRho(TwoWays(p, q, r), [x], [y]) == TwoWays(p, q, r)(x, y)
  {
    var rho := TwoWays(p, q, r);
    assert [x][..0] == [] && [y][..0] == [];
    SumOne(x, RowOf(rho, [y]));
    SumOne(y, CellOf(rho, x));
    assert |[x]| * |[y]| == 1;
    assert x in [x] && y in [y];
  }

  lemma {:induction false} OfferOfTwo(p: string, q: string, r: string, x: string, y: string)
    requires p != q && p != r && q != r && PairJoin(p, q) == PairJoin(p, r) && x != y
    ensures OfferOf(TwoWays(p, q, r), [x], [y]) == if TwoWays(p, q, r)(x, y) == None then None
            else Some(Offer(0.9, PairJoin(p, q)))
  {
    hide Join, Less, MeanRho;
    MeanOfTwo(p, q, r, x, y);
    LabelIsLeast([x]); LabelIsLeast([y]);
    PairLabelSorted([x], [y]);
    LessTotal(x, y);
  }

  lemma {:induction false} ScanStays(n: nat, offers: Offers, i: nat, j: nat, f: Found)
    requires i < j && forall k: nat, l: nat :: k < l < n && offers(k, l).Some? ==> offers(k, l).value == f.offer
    ensures Scan(n, offers, i, j, Some(f)) == Some(f)
    decreases n - i, n - j
  {
    LessTotal(f.offer.name, f.offer.name);
    if i < n {
      if j >= n {
        ScanStays(n, offers, i + 1, i + 2, f);
      } else {
        ScanStays(n, offers, i, j + 1, f);
      }
    }
  }

  /** With equal offers only, the first pair that has one is taken. */
  lemma {:induction false} FirstIsTaken(p: string, q: string, r: string, first: string, ids: seq<string>)
    requires p != q && p != r && q != r && PairJoin(p, q) == PairJoin(p, r) && first in {q, r}
    requires Distinct(ids) && |ids| >= 2 && ids[0] == p && ids[1] == first
    ensures BestPair(TwoWays(p, q, r), Singletons(ids)) == Some(Found(0, 1, Offer(0.9, PairJoin(p, q))))
  {
    hide OfferOf, Consider, Scan, PairJoin;
    var rho, groups := TwoWays(p, q, r), Singletons(ids);
    var offers, o := OffersIn(rho, groups), Offer(0.9, PairJoin(p, q));
    forall k: nat, l: nat | k < l < |groups|
      ensures offers(k, l) == if rho(ids[k], ids[l]) == None then None else Some(o) {
      OfferAt(rho, groups, k, l);
      OfferOfTwo(p, q, r, ids[k], ids[l]);
    }
    ScanSteps(|groups|, offers, 0, 1, None);
    ConsiderFirst(o);
    ScanStays(|groups|, offers, 0, 2, Found(0, 1, o));
  }

  lemma ConsiderFirst(o: Offer)
    ensures Consider(Some(o), 0, 1, None) == Some(Found(0, 1, o))
  {
  }

  lemma {:induction false} ThenItStops(p: string, q: string, r: string, first: string, ids: seq<string>)
    requires p != q && p != r && q != r && first in {q, r}
    requires Distinct(ids) && |ids| >= 2 && ids[0] == p && ids[1] == first
    ensures var merged := MergeParts(Parts(Singletons(ids)), {p}, {first});
            Settled(TwoWays(p, q, r), merged) && {p, first} in merged
  {
    hide Mean, Parts, Singletons;
    var rho, merged := TwoWays(p, q, r), MergeParts(Parts(Singletons(ids)), {p}, {first});
    SingletonsProper(ids);
    assert {p} + {first} == {p, first};
    forall a, b | a in merged && b in merged && a != b ensures !Linked(rho, a, b) {
      LoneOrFirst(ids, p, first, a);
      LoneOrFirst(ids, p, first, b);
      var x := if a == {p, first} then first else Lone(a);
      var y := if b == {p, first} then first else Lone(b);
      assert x in a && y in b && rho(x, y) == None;
    }
  }

  ghost function Lone(s: set<string>): string {
    if exists x :: s == {x} then var x :| s == {x}; x else ""
  }

  lemma LoneOrFirst(ids: seq<string>, p: string, first: string, part: set<string>)
    requires part in MergeParts(set x | x in ids :: {x}, {p}, {first})
    ensures part == {p, first} || (part == {Lone(part)} && Lone(part) != p && Lone(part) != first)
  {
    if part != {p, first} {
      assert {p} + {first} == {p, first};
      var x :| x in ids && part == {x};
    }
  }

  lemma {:induction false} SettleSteps(rho: Rho, groups: seq<Group>)
    ensures var f := BestPair(rho, groups);
            Settle(rho, groups) == if f == None then groups else Settle(rho, Merged(groups, f.value.i, f.value.j))
  {
  }

  /** Whichever partner is listed right after p takes it. */
  lemma {:induction false} NextInLineWins(p: string, q: string, r: string, first: string, ids: seq<string>)
    requires p != q && p != r && q != r && PairJoin(p, q) == PairJoin(p, r) && first in {q, r}
    requires Distinct(ids) && |ids| >= 2 && ids[0] == p && ids[1] == first
    ensures Symmetric(TwoWays(p, q, r)) && {p, first} in Clusters(ids, TwoWays(p, q, r))
  {
    hide BestPair, Merged, Mergeable, MergeParts, PairJoin, Settled, Settle, MergeOffer, Ahead, Proper;
    var rho, groups := TwoWays(p, q, r), Singletons(ids);
    var merged := Merged(groups, 0, 1);
    FirstIsTaken(p, q, r, first, ids);
    ThenItStops(p, q, r, first, ids);
    SingletonsProper(ids);
    MergedParts(groups, 0, 1);
    assert Elems(groups[0]) == {p} && Elems(groups[1]) == {first};
    MergedProper(groups, 0, 1);
    BestPairIsBest(rho, merged);
    SettledHasNoBest(rho, Parts(merged));
    SettleSteps(rho, groups);
    SettleSteps(rho, merged);
  }

  lemma {:induction false} Listing(s: set<string>) returns (ids: seq<string>)
    ensures Lists(ids, s)
    decreases s
  {
    if s == {} {
      ids := [];
    } else {
      var x :| x in s;
      var rest := Listing(s - {x});
      assert x !in rest by {
        assert x !in Elems(rest);
      }
      ids := rest + [x];
      assert forall z :: z in rest <==> z in Elems(rest);
      assert Elems(ids) == s;
    }
  }

  lemma {:induction false} ListedFirst(s: set<string>, p: string, x: string, y: string, rest: seq<string>)
    requires {p, x, y} <= s && p != x && p != y && x != y && Lists(rest, s - {p, x, y})
    ensures Lists([p, x, y] + rest, s)
  {
    var ids := [p, x, y] + rest;
    assert forall z :: z in rest <==> z in Elems(rest);
    assert forall z :: z in ids <==> z in [p, x, y] || z in rest;
  }

  lemma {:induction false} TieBreaksOrder(names: set<string>, p: string, q: string, r: string)
    requires p in names && q in names && r in names && p != q && p != r && q != r && PairJoin(p, q) == PairJoin(p, r)
    ensures !OrderFree(names)
  {
    hide PairJoin, Clusters, Elems, Distinct, TwoWays, Symmetric;
    var rest := Listing(names - {p, q, r});
    assert names - {p, q, r} == names - {p, r, q};
    ListedFirst(names, p, q, r, rest);
    ListedFirst(names, p, r, q, rest);
    var ids, shuffled, rho := [p, q, r] + rest, [p, r, q] + rest, TwoWays(p, q, r);
    NextInLineWins(p, q, r, q, ids);
    NextInLineWins(p, q, r, r, shuffled);
    ClustersApart(ids, rho);
    TwoClustersOfOne(Clusters(ids, rho), p, q, r);
    assert !SameEitherWay(ids, shuffled, rho);
  }

  lemma ClustersApart(ids: seq<string>, rho: Rho)
    requires Distinct(ids) && Symmetric(rho)
    ensures Apart(Clusters(ids, rho))
  {
    ClusterResult(ids, rho);
  }

  lemma TwoClustersOfOne(parts: set<set<string>>, p: string, q: string, r: string)
    requires Apart(parts) && q != r && p != q && p != r
    ensures !({p, q} in parts && {p, r} in parts)
  {
    assert q in {p, q} && q !in {p, r} && p in {p, q} && p in {p, r};
  }

  /** The clusters are free of the input order exactly when no name joins with two different partners to one label. */
  lemma {:induction false} OrderFreeExactly(names: set<string>)
    ensures OrderFree(names) <==> PartnersApart(names)
  {
    hide Clusters, PairJoin;
    if PartnersApart(names) {
      forall ids: seq<string>, shuffled: seq<string>,
          rho: Rho | Lists(ids, names) && Lists(shuffled, names) && Symmetric(rho)
        ensures SameEitherWay(ids, shuffled, rho)
      {
        OrderDoesNotMatter(ids, shuffled, rho);
      }
    } else {
      var p, q, r :| p in names && q in names && r in names && p != q && p != r && PairJoin(p, q) == PairJoin(p, r)
          && q != r;
      TieBreaksOrder(names, p, q, r);
    }
  }
}
