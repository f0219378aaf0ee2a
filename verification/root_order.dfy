/** Roots in increasing order: iteration over an ordered map and sorted lists. */
module RootOrder {
  import opened Types

  ghost predicate StrictlySorted(roots: seq<Root>) {
    forall i, j | 0 <= i < j < |roots| :: roots[i] < roots[j]
  }

  ghost function ToSet(roots: seq<Root>): set<Root> {
    set r | r in roots
  }

  ghost predicate IsMin(s: set<Root>, m: Root) {
    m in s && forall q | q in s :: m <= q
  }

  lemma MinExists(s: set<Root>)
    requires s != {}
    ensures exists m :: IsMin(s, m)
  {
    var m :| m in s;
    if s == {m} {
      assert IsMin(s, m);
    } else {
      assert s == {m} + (s - {m});
      MinExists(s - {m});
      var m' :| IsMin(s - {m}, m');
      assert IsMin(s, if m' < m then m' else m);
    }
  }

  ghost function MinOf(s: set<Root>): (m: Root)
    requires s != {}
    ensures IsMin(s, m)
  {
    MinExists(s);
    var m :| IsMin(s, m);
    m
  }

  /** The elements of a set in increasing order. */
  ghost function SortedRoots(s: set<Root>): (r: seq<Root>)
    ensures StrictlySorted(r) && ToSet(r) == s
  {
    if s == {} then []
    else
      var m := MinOf(s);
      var rest := SortedRoots(s - {m});
      ConsSorted(m, rest, s);
      [m] + rest
  }

  lemma SortedHead(s: set<Root>, m: Root)
    requires IsMin(s, m)
    ensures SortedRoots(s) == [m] + SortedRoots(s - {m})
  {
    assert m == MinOf(s);
  }

  lemma Regroup(front: seq<Root>, m: Root, rest: seq<Root>)
    ensures front + ([m] + rest) == (front + [m]) + rest
  {
  }

  lemma ConsSorted(m: Root, rest: seq<Root>, s: set<Root>)
    requires IsMin(s, m)
    requires StrictlySorted(rest) && ToSet(rest) == s - {m}
    ensures StrictlySorted([m] + rest) && ToSet([m] + rest) == s
  {
    assert forall i | 0 <= i < |rest| :: rest[i] in ToSet(rest);
    forall q ensures q in ToSet([m] + rest) <==> q in s {
      assert q in [m] + rest <==> q == m || q in rest;
      assert q in rest <==> q in ToSet(rest);
    }
  }

  /** A strictly sorted list is determined by its elements. */
  lemma {:induction false} SortedIsUnique(a: seq<Root>, b: seq<Root>)
    requires StrictlySorted(a) && StrictlySorted(b) && ToSet(a) == ToSet(b)
    ensures a == b
    decreases |a|
  {
    assert forall r | r in a :: r in ToSet(b);
    assert forall r | r in b :: r in ToSet(a);
    if a == [] {
      assert forall r | r in b :: false;
      assert b == [];
    } else {
      assert a[0] in ToSet(b);
      var i :| 0 <= i < |b| && b[i] == a[0];
      assert b[0] in ToSet(a);
      var j :| 0 <= j < |a| && a[j] == b[0];
      assert a[0] == b[0];
      forall r ensures r in ToSet(a[1..]) <==> r in ToSet(b[1..]) {
        if r in a[1..] { var k :| 0 <= k < |a[1..]| && a[1..][k] == r; assert a[k + 1] == r; assert r in ToSet(b); }
        if r in b[1..] { var k :| 0 <= k < |b[1..]| && b[1..][k] == r; assert b[k + 1] == r; assert r in ToSet(a); }
      }
      SortedIsUnique(a[1..], b[1..]);
    }
  }

  /** Lists a set in increasing order. */
  method SortRoots(s: set<Root>) returns (roots: seq<Root>)
    ensures roots == SortedRoots(s)
  {
    roots := [];
    var rest := s;
    while rest != {}
      invariant roots + SortedRoots(rest) == SortedRoots(s)
      decreases rest
    {
      MinExists(rest);
      var m :| m in rest && forall q | q in rest :: m <= q;
      SortedHead(rest, m);
      Regroup(roots, m, SortedRoots(rest - {m}));
      roots := roots + [m];
      rest := rest - {m};
    }
  }
}
