/**
 * The built-in stable sort, and string order.
 * `before` plays the comparator: `before(x, y)` when it puts x strictly ahead of y.
 */
module Sorting {

  function Insert<T>(x: T, s: seq<T>, before: (T, T) -> bool): (r: seq<T>)
    ensures |r| == |s| + 1
    ensures multiset(r) == multiset(s) + multiset{x}
  {
    if s == [] then
      [x]
    else
      var n := |s| - 1;
      assert s == s[..n] + [s[n]];
      if before(x, s[n]) then Insert(x, s[..n], before) + [s[n]] else s + [x]
  }

  function Sort<T>(s: seq<T>, before: (T, T) -> bool): (r: seq<T>)
    ensures |r| == |s|
    ensures multiset(r) == multiset(s)
  {
    if s == [] then
      []
    else
      var n := |s| - 1;
      assert s == s[..n] + [s[n]];
      Insert(s[n], Sort(s[..n], before), before)
  }

  ghost predicate Sorted<T>(s: seq<T>, before: (T, T) -> bool) {
    forall i, j :: 0 <= i < j < |s| ==> !before(s[j], s[i])
  }

  /** Asymmetric, and incomparability is transitive. */
  ghost predicate StrictWeakOrder<T(!new)>(before: (T, T) -> bool) {
    && (forall x, y :: before(x, y) ==> !before(y, x))
    && (forall x, y, z :: before(x, z) ==> before(x, y) || before(y, z))
  }

  lemma {:induction false} InsertSorted<T(!new)>(x: T, s: seq<T>, before: (T, T) -> bool)
    requires StrictWeakOrder(before) && Sorted(s, before)
    ensures Sorted(Insert(x, s, before), before)
  {
    if s != [] {
      var n := |s| - 1;
      if before(x, s[n]) {
        InsertSorted(x, s[..n], before);
        var r := Insert(x, s[..n], before);
        forall i | 0 <= i < |r| ensures !before(s[n], r[i]) {
          assert r[i] in multiset(r);
          assert r[i] == x || r[i] in s[..n];
        }
        SortedThenLast(r, s[n], before);
      } else {
        forall i | 0 <= i < |s| ensures !before(x, s[i]) {
          if i < n {
            StillNotBefore(x, s[n], s[i], before);
          }
        }
        SortedThenLast(s, x, before);
      }
    }
  }

  lemma StillNotBefore<T(!new)>(x: T, last: T, y: T, before: (T, T) -> bool)
    requires StrictWeakOrder(before) && !before(x, last) && !before(last, y)
    ensures !before(x, y)
  {
  }

  lemma {:induction false} SortedThenLast<T(!new)>(s: seq<T>, x: T, before: (T, T) -> bool)
    requires Sorted(s, before) && forall i :: 0 <= i < |s| ==> !before(x, s[i])
    ensures Sorted(s + [x], before)
  {
  }

  lemma {:induction false} SortSorted<T(!new)>(s: seq<T>, before: (T, T) -> bool)
    requires StrictWeakOrder(before)
    ensures Sorted(Sort(s, before), before)
  {
    if s != [] {
      SortSorted(s[..|s| - 1], before);
      InsertSorted(s[|s| - 1], Sort(s[..|s| - 1], before), before);
    }
  }

  /** When the order separates any two different elements, a sorted sequence is determined by its contents. */
  lemma {:induction false} SortedUnique<T(!new)>(s: seq<T>, t: seq<T>, before: (T, T) -> bool)
    requires Sorted(s, before) && Sorted(t, before)
    requires forall x, y :: x in s && y in s && x != y ==> before(x, y) || before(y, x)
    requires multiset(s) == multiset(t)
    ensures s == t
  {
    assert |s| == |multiset(s)| == |multiset(t)| == |t|;
    if s != [] {
      SortedHead(s, t, before);
      SameTail(s, t);
      SortedUnique(s[1..], t[1..], before);
    }
  }

  lemma SameTail<T>(s: seq<T>, t: seq<T>)
    requires s != [] && t != [] && s[0] == t[0] && multiset(s) == multiset(t)
    ensures multiset(s[1..]) == multiset(t[1..]) && s == [s[0]] + s[1..] && t == [s[0]] + t[1..]
    ensures forall x :: x in s[1..] ==> x in s
  {
    assert s == [s[0]] + s[1..] && t == [s[0]] + t[1..];
    assert multiset(s[1..]) == multiset(s) - multiset{s[0]} == multiset(t[1..]);
  }

  lemma SortedHead<T(!new)>(s: seq<T>, t: seq<T>, before: (T, T) -> bool)
    requires Sorted(s, before) && Sorted(t, before) && s != [] && t != []
    requires forall x, y :: x in s && y in s && x != y ==> before(x, y) || before(y, x)
    requires multiset(s) == multiset(t)
    ensures s[0] == t[0]
  {
    assert s[0] in multiset(t) && t[0] in multiset(s);
    assert s[0] in t && t[0] in s;
  }

  /** Lexicographic order by code unit. */
  predicate Less(a: string, b: string) {
    if b == "" then false
    else if a == "" then true
    else if a[0] != b[0] then a[0] < b[0]
    else Less(a[1..], b[1..])
  }

  lemma {:induction false} LessTotal(a: string, b: string)
    ensures Less(a, b) ==> !Less(b, a)
    ensures a != b <==> Less(a, b) || Less(b, a)
  {
    if a != "" && b != "" {
      LessTotal(a[1..], b[1..]);
      assert a == [a[0]] + a[1..] && b == [b[0]] + b[1..];
    }
  }

  lemma {:induction false} LessIsLexicographic(a: string, b: string)
    ensures Less(a, b) <==> exists k :: LessAt(a, b, k)
  {
    if a != "" && b != "" && a[0] == b[0] {
      LessIsLexicographic(a[1..], b[1..]);
      if k: nat :| LessAt(a[1..], b[1..], k) {
        assert a[..k + 1] == [a[0]] + a[1..][..k] && b[..k + 1] == [b[0]] + b[1..][..k];
        assert LessAt(a, b, k + 1);
      }
      if k: nat :| LessAt(a, b, k) {
        assert k > 0;
        assert a[1..][..k - 1] == a[..k][1..] && b[1..][..k - 1] == b[..k][1..];
        assert LessAt(a[1..], b[1..], k - 1);
      }
    } else {
      LessAtOnce(a, b);
    }
  }

  lemma LessAtOnce(a: string, b: string)
    requires a == "" || b == "" || a[0] != b[0]
    ensures (exists k :: LessAt(a, b, k)) <==> LessAt(a, b, 0)
  {
    forall k | 0 < k <= |a| && k < |b| ensures a[..k] != b[..k] {
      assert a[..k][0] != b[..k][0];
    }
  }

  ghost predicate LessAt(a: string, b: string, k: nat) {
    k <= |a| && k < |b| && a[..k] == b[..k] && (k == |a| || a[k] < b[k])
  }

  lemma {:induction false} LessTransitive(a: string, b: string, c: string)
    requires Less(a, b) && Less(b, c)
    ensures Less(a, c)
  {
    if a != "" && b != "" && c != "" && a[0] == b[0] && b[0] == c[0] {
      LessTransitive(a[1..], b[1..], c[1..]);
    }
  }

  lemma LessIsOrder()
    ensures StrictWeakOrder(Less)
  {
    forall a, b ensures Less(a, b) ==> !Less(b, a) {
      LessTotal(a, b);
    }
    forall a, b, c ensures Less(a, c) ==> Less(a, b) || Less(b, c) {
      LessTotal(a, b);
      LessTotal(b, c);
      if Less(a, c) && !Less(a, b) && Less(b, a) {
        LessTransitive(b, a, c);
      }
    }
  }
}
