/** Single linkage by union-find with path compression, rooted at the least name of each component. */
module SingleLinkage {
  import opened Sorting

  type Link = (string, string)

  /** A pointer leads to an earlier name, or a name is its own root. */
  ghost predicate Descends(parent: map<string, string>) {
    forall x :: x in parent ==> parent[x] == x || Less(parent[x], x)
  }

  /** The names in the map that are no later than x: what a search from x can still visit. */
  ghost function Reach(parent: map<string, string>, x: string): set<string> {
    set y | y in parent && (y == x || Less(y, x))
  }

  lemma ReachShrinks(parent: map<string, string>, x: string)
    requires Descends(parent) && x in parent && parent[x] != x
    ensures Reach(parent, parent[x]) < Reach(parent, x)
  {
    var p := parent[x];
    LessTotal(p, x);
    forall y | y in Reach(parent, p) ensures y in Reach(parent, x) {
      if Less(y, p) {
        LessTransitive(y, p, x);
      }
    }
    assert x in Reach(parent, x) && x !in Reach(parent, p);
  }

  ghost function Root(parent: map<string, string>, x: string): string
    requires Descends(parent)
    decreases Reach(parent, x)
  {
    if x !in parent || parent[x] == x then x
    else
      ReachShrinks(parent, x);
      Root(parent, parent[x])
  }

  lemma {:induction false} RootIsRoot(parent: map<string, string>, x: string)
    requires Descends(parent)
    ensures var r := Root(parent, x);
            && (r !in parent || parent[r] == r) && (r == x || Less(r, x)) && Root(parent, r) == r
    decreases Reach(parent, x)
  {
    if x in parent && parent[x] != x {
      ReachShrinks(parent, x);
      RootIsRoot(parent, parent[x]);
      if Root(parent, x) != parent[x] {
        LessTransitive(Root(parent, x), parent[x], x);
      }
    }
  }

  /** Pointing a name at a root moves exactly the names whose search goes through it. */
  ghost function Repointed(parent: map<string, string>, x: string, root: string): map<string, string> {
    parent[x := root]
  }

  /** Compression: re-pointing a name at its own root changes no root. */
  lemma {:induction false} CompressKeepsRoots(parent: map<string, string>, x: string, y: string)
    requires Descends(parent) && x in parent
    ensures var next := Repointed(parent, x, Root(parent, x)); Descends(next) && Root(next, y) == Root(parent, y)
    decreases Reach(parent, y)
  {
    var r := Root(parent, x);
    var next := Repointed(parent, x, r);
    RootIsRoot(parent, x);
    if y == x {
      if r != x {
        RootAt(next, r);
      }
    } else if y in parent && parent[y] != y {
      ReachShrinks(parent, y);
      CompressKeepsRoots(parent, x, parent[y]);
    }
  }

  lemma RootAt(parent: map<string, string>, r: string)
    requires Descends(parent) && (r !in parent || parent[r] == r)
    ensures Root(parent, r) == r
  {
  }

  /** Joining two roots sends the whole of one component to the other root. */
  lemma {:induction false} JoinMovesRoots(parent: map<string, string>, low: string, high: string, y: string)
    requires Descends(parent) && Less(low, high)
    requires Root(parent, low) == low && Root(parent, high) == high
    ensures var next := Repointed(parent, high, low);
            && Descends(next)
            && Root(next, y) == if Root(parent, y) == high then low else Root(parent, y)
    decreases Reach(parent, y)
  {
    var next := Repointed(parent, high, low);
    LessTotal(low, high);
    RootIsRoot(parent, low);
    RootIsRoot(parent, high);
    RootIsRoot(parent, y);
    if y == high {
      RootAt(next, low);
    } else if y in parent && parent[y] != y {
      ReachShrinks(parent, y);
      JoinMovesRoots(parent, low, high, parent[y]);
    }
  }

  // ----- connection through links

  ghost predicate Linked(links: seq<Link>, x: string, y: string) {
    (x, y) in links || (y, x) in links
  }

  ghost predicate IsPath(links: seq<Link>, path: seq<string>) {
    path != [] && forall i :: 0 <= i < |path| - 1 ==> Linked(links, path[i], path[i + 1])
  }

  /** x and y are joined by a chain of links. */
  ghost predicate Connected(links: seq<Link>, x: string, y: string) {
    exists path :: IsPath(links, path) && path[0] == x && path[|path| - 1] == y
  }

  lemma ConnectedSelf(links: seq<Link>, x: string)
    ensures Connected(links, x, x)
  {
    assert IsPath(links, [x]);
  }

  lemma ConnectedTransitive(links: seq<Link>, x: string, y: string, z: string)
    requires Connected(links, x, y) && Connected(links, y, z)
    ensures Connected(links, x, z)
  {
    var p :| IsPath(links, p) && p[0] == x && p[|p| - 1] == y;
    var q :| IsPath(links, q) && q[0] == y && q[|q| - 1] == z;
    var whole := p + q[1..];
    forall i | 0 <= i < |whole| - 1 ensures Linked(links, whole[i], whole[i + 1]) {
      if i >= |p| - 1 {
        var k := i - (|p| - 1);
        assert Linked(links, q[k], q[k + 1]);
        assert whole[i] == q[k];
      }
    }
    assert IsPath(links, whole);
  }

  lemma ConnectedGrows(links: seq<Link>, more: seq<Link>, x: string, y: string)
    requires Connected(links, x, y) && links <= more
    ensures Connected(more, x, y)
  {
    var path :| IsPath(links, path) && path[0] == x && path[|path| - 1] == y;
    assert forall l :: l in links ==> l in more;
    assert forall i :: 0 <= i < |path| - 1 ==> Linked(links, path[i], path[i + 1]);
    assert IsPath(more, path);
  }

  lemma ConnectedByLink(links: seq<Link>, x: string, y: string)
    requires Linked(links, x, y)
    ensures Connected(links, x, y)
  {
    assert IsPath(links, [x, y]);
  }

  /** Two names have the same root exactly when the links processed so far connect them. */
  ghost predicate RootsAreComponents(parent: map<string, string>, links: seq<Link>) {
    Descends(parent) && forall x, y :: Root(parent, x) == Root(parent, y) <==> Connected(links, x, y)
  }

  /** What a new link changes: two components become one. */
  lemma ConnectedAfterLink(links: seq<Link>, l: Link, x: string, y: string)
    ensures Connected(links + [l], x, y) <==>
      || Connected(links, x, y)
      || (Connected(links, x, l.0) && Connected(links, l.1, y))
      || (Connected(links, x, l.1) && Connected(links, l.0, y))
  {
    var more := links + [l];
    assert links <= more;
    if Connected(more, x, y) {
      var path :| IsPath(more, path) && path[0] == x && path[|path| - 1] == y;
      PathAfterLink(links, l, path);
    }
    assert Linked(more, l.0, l.1) && Linked(more, l.1, l.0);
    ConnectedByLink(more, l.0, l.1);
    ConnectedByLink(more, l.1, l.0);
    if Connected(links, x, y) {
      ConnectedGrows(links, more, x, y);
    }
    if Connected(links, x, l.0) && Connected(links, l.1, y) {
      ConnectedGrows(links, more, x, l.0); ConnectedGrows(links, more, l.1, y);
      ConnectedTransitive(more, x, l.0, l.1); ConnectedTransitive(more, x, l.1, y);
    }
    if Connected(links, x, l.1) && Connected(links, l.0, y) {
      ConnectedGrows(links, more, x, l.1); ConnectedGrows(links, more, l.0, y);
      ConnectedTransitive(more, x, l.1, l.0); ConnectedTransitive(more, x, l.0, y);
    }
  }

  ghost predicate JoinedBy(links: seq<Link>, l: Link, x: string, y: string) {
    || Connected(links, x, y)
    || (Connected(links, x, l.0) && Connected(links, l.1, y))
    || (Connected(links, x, l.1) && Connected(links, l.0, y))
  }

  lemma {:induction false} PathAfterLink(links: seq<Link>, l: Link, path: seq<string>)
    requires IsPath(links + [l], path)
    ensures JoinedBy(links, l, path[0], path[|path| - 1])
  {
    var n := |path| - 1;
    if n == 0 {
      ConnectedSelf(links, path[0]);
    } else {
      assert IsPath(links + [l], path[..n]);
      PathAfterLink(links, l, path[..n]);
      var x, mid, y := path[0], path[n - 1], path[n];
      assert Linked(links + [l], mid, y);
      ConnectedSelf(links, l.0); ConnectedSelf(links, l.1);
      if Linked(links, mid, y) {
        ConnectedByLink(links, mid, y);
        JoinedExtends(links, l, x, mid, y);
      } else {
        assert (mid == l.0 && y == l.1) || (mid == l.1 && y == l.0);
        JoinedCrosses(links, l, x, mid, y);
      }
    }
  }

  lemma JoinedExtends(links: seq<Link>, l: Link, x: string, mid: string, y: string)
    requires JoinedBy(links, l, x, mid) && Connected(links, mid, y)
    ensures JoinedBy(links, l, x, y)
  {
    if Connected(links, x, mid) {
      ConnectedTransitive(links, x, mid, y);
    } else if Connected(links, x, l.0) && Connected(links, l.1, mid) {
      ConnectedTransitive(links, l.1, mid, y);
    } else {
      ConnectedTransitive(links, l.0, mid, y);
    }
  }

  lemma JoinedCrosses(links: seq<Link>, l: Link, x: string, mid: string, y: string)
    requires JoinedBy(links, l, x, mid) && ((mid == l.0 && y == l.1) || (mid == l.1 && y == l.0))
    ensures JoinedBy(links, l, x, y)
  {
    ConnectedSelf(links, l.0); ConnectedSelf(links, l.1);
  }

  lemma NoLinksNoPaths(x: string, y: string)
    ensures Connected([], x, y) <==> x == y
  {
    if Connected([], x, y) {
      var path :| IsPath([], path) && path[0] == x && path[|path| - 1] == y;
      assert |path| > 1 ==> Linked([], path[0], path[1]);
    }
    ConnectedSelf([], x);
  }

  lemma OwnRoots(parent: map<string, string>)
    requires forall x :: x in parent ==> parent[x] == x
    ensures RootsAreComponents(parent, [])
  {
    forall x, y ensures Root(parent, x) == Root(parent, y) <==> Connected([], x, y) {
      NoLinksNoPaths(x, y);
    }
  }

  /** The roots of l's ends were already one. */
  lemma LinkWithin(parent: map<string, string>, links: seq<Link>, l: Link)
    requires RootsAreComponents(parent, links) && Root(parent, l.0) == Root(parent, l.1)
    ensures RootsAreComponents(parent, links + [l])
  {
    forall x, y ensures Root(parent, x) == Root(parent, y) <==> Connected(links + [l], x, y) {
      ConnectedAfterLink(links, l, x, y);
    }
  }

  /** The later root is pointed at the earlier one. */
  lemma LinkAcross(parent: map<string, string>, links: seq<Link>, l: Link, low: string, high: string)
    requires RootsAreComponents(parent, links) && Less(low, high)
    requires {low, high} == {Root(parent, l.0), Root(parent, l.1)}
    ensures RootsAreComponents(Repointed(parent, high, low), links + [l])
  {
    RootIsRoot(parent, l.0);
    RootIsRoot(parent, l.1);
    assert Root(parent, l.0) in {low, high} && Root(parent, l.1) in {low, high};
    LessTotal(low, high);
    var next := Repointed(parent, high, low);
    forall x, y ensures Descends(next) && (Root(next, x) == Root(next, y) <==> Connected(links + [l], x, y)) {
      JoinMovesRoots(parent, low, high, x);
      JoinMovesRoots(parent, low, high, y);
      ConnectedAfterLink(links, l, x, y);
      SameRoots(parent, links, l, x, y);
    }
  }

  lemma SameRoots(parent: map<string, string>, links: seq<Link>, l: Link, x: string, y: string)
    requires RootsAreComponents(parent, links)
    ensures JoinedBy(links, l, x, y) <==>
      || Root(parent, x) == Root(parent, y)
      || (Root(parent, x) == Root(parent, l.0) && Root(parent, l.1) == Root(parent, y))
      || (Root(parent, x) == Root(parent, l.1) && Root(parent, l.0) == Root(parent, y))
  {
  }

  /** A root is the least name that its component connects to. */
  lemma RootIsLeast(parent: map<string, string>, links: seq<Link>, x: string)
    requires RootsAreComponents(parent, links)
    ensures Connected(links, x, Root(parent, x))
    ensures forall y :: Connected(links, x, y) ==> Root(parent, x) == y || Less(Root(parent, x), y)
  {
    RootIsRoot(parent, x);
    forall y | Connected(links, x, y) ensures Root(parent, x) == y || Less(Root(parent, x), y) {
      RootIsRoot(parent, y);
    }
  }

  class Forest {
    var parent: map<string, string>

    constructor (ids: seq<string>)
      ensures Descends(parent) && RootsAreComponents(parent, [])
    {
      parent := map x | x in ids :: x;
      new;
      OwnRoots(parent);
    }

    /** Finds the root and points every name on the way at it; no root changes. */
    method Find(id: string) returns (root: string)
      requires Descends(parent)
      modifies this`parent
      ensures Descends(parent) && root == Root(old(parent), id)
      ensures parent.Keys == old(parent).Keys
      ensures forall y :: Root(parent, y) == Root(old(parent), y)
      decreases Reach(parent, id)
    {
      var next := if id in parent then parent[id] else id;
      if next == id {
        return id;
      }
      ReachShrinks(parent, id);
      root := Find(next);
      forall y ensures Descends(Repointed(parent, id, Root(parent, id)))
                       && Root(Repointed(parent, id, Root(parent, id)), y) == Root(parent, y) {
        CompressKeepsRoots(parent, id, y);
      }
      parent := parent[id := root];
    }

    method Link(left: string, right: string, ghost links: seq<Link>)
      requires RootsAreComponents(parent, links)
      modifies this`parent
      ensures RootsAreComponents(parent, links + [(left, right)])
    {
      var a := Find(left);
      var b := Find(right);
      if a == b {
        LinkWithin(parent, links, (left, right));
        return;
      }
      LessTotal(a, b);
      if Less(a, b) {
        LinkAcross(parent, links, (left, right), a, b);
        parent := parent[b := a];
      } else {
        LinkAcross(parent, links, (left, right), b, a);
        parent := parent[a := b];
      }
    }
  }

  /** `name` labels x's component: connected to x, and earlier than every other name that is. */
  ghost predicate IsLabel(links: seq<Link>, x: string, name: string) {
    Connected(links, x, name) && forall y :: Connected(links, x, y) ==> name == y || Less(name, y)
  }

  method SingleLinkage(ids: seq<string>, linked: seq<Link>) returns (out: map<string, string>)
    ensures forall x :: x in out <==> x in ids
    ensures forall x :: x in out ==> IsLabel(linked, x, out[x])
    ensures forall x, y :: x in out && y in out ==> (out[x] == out[y] <==> Connected(linked, x, y))
  {
    var forest := new Forest(ids);
    for k := 0 to |linked|
      invariant fresh(forest) && RootsAreComponents(forest.parent, linked[..k])
    {
      forest.Link(linked[k].0, linked[k].1, linked[..k]);
      assert linked[..k] + [(linked[k].0, linked[k].1)] == linked[..k + 1];
    }
    assert linked[..|linked|] == linked;
    out := map[];
    for k := 0 to |ids|
      invariant fresh(forest) && RootsAreComponents(forest.parent, linked)
      invariant forall x :: x in out <==> x in ids[..k]
      invariant forall x :: x in out ==> out[x] == Root(forest.parent, x)
    {
      var root := forest.Find(ids[k]);
      out := out[ids[k] := root];
    }
    assert ids[..|ids|] == ids;
    forall x | x in out ensures IsLabel(linked, x, out[x]) {
      RootIsLeast(forest.parent, linked, x);
    }
  }
}
