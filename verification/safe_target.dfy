/**
 * The safe target: the GHOST walk with a two-thirds filter. With at most one vote per validator the
 * filter leaves at most one child, so the result is the deepest block with two-thirds support.
 */
module SafeTargets {
  import opened Types
  import opened Forests
  import opened CachedTrees
  import opened TreeViews
  import opened LmdGhost
  import opened AggregationBits

  function CeilDiv(l: nat, r: nat): nat
    requires r > 0
  {
    (l + r - 1) / r
  }

  /** The minimum weight for the safe target. */
  function MinTargetScore(n: nat): nat {
    CeilDiv(2 * n, 3)
  }

  /** The filter is the threshold of the transition function. */
  lemma ScoreIsTwoThirds(n: nat, weight: nat)
    ensures weight >= MinTargetScore(n) <==> 3 * weight >= 2 * n
  {
  }

  ghost predicate Supported(f: Forest, votes: Votes, n: nat, b: Root)
    requires WellFormed(f)
  {
    3 * |Supporters(f, votes, b)| >= 2 * n
  }

  /** Support grows towards the root. */
  lemma SupportGrowsUp(f: Forest, votes: Votes, a: Root, b: Root)
    requires WellFormed(f) && IsAncestor(f, a, b)
    ensures Supporters(f, votes, b) <= Supporters(f, votes, a)
    ensures |Supporters(f, votes, b)| <= |Supporters(f, votes, a)|
  {
    forall v | v in Supporters(f, votes, b) ensures v in Supporters(f, votes, a) {
      AncestorTrans(f, a, b, votes[v]);
    }
    SubsetSize(Supporters(f, votes, b), Supporters(f, votes, a));
  }

  /** Two blocks with two-thirds support share a voter, so one is an ancestor of the other. */
  lemma SupportedAreComparable(f: Forest, votes: Votes, n: nat, a: Root, b: Root)
    requires WellFormed(f) && n > 0 && |votes| <= n && Supported(f, votes, n, a) && Supported(f, votes, n, b)
    ensures IsAncestor(f, a, b) || IsAncestor(f, b, a)
  {
    var sa, sb := Supporters(f, votes, a), Supporters(f, votes, b);
    SubsetSize(sa + sb, votes.Keys);
    assert |sa + sb| == |sa| + |sb| - |sa * sb|;
    assert sa * sb != {};
    var v :| v in sa * sb;
    AncestorsComparable(f, a, b, votes[v]);
  }

  /** At most one child of a block passes the filter. */
  lemma OneSupportedChild(f: Forest, votes: Votes, n: nat, p: Root, c: Root, d: Root)
    requires WellFormed(f) && n > 0 && |votes| <= n && IsChild(f, p, c) && IsChild(f, p, d)
    requires Supported(f, votes, n, c) && Supported(f, votes, n, d)
    ensures c == d
  {
    SupportedAreComparable(f, votes, n, c, d);
    if c != d {
      if IsAncestor(f, c, d) { AncestorSlot(f, c, p); } else { AncestorSlot(f, d, p); }
      assert false;
    }
  }

  /** The safe target below `anchor`. */
  ghost function SafeTarget(v: View, votes: Votes, n: nat, anchor: Root): Root
    requires ViewOk(v) && anchor in v.headers
  {
    Walk(v, votes, v.headers[anchor].slot, MinTargetScore(n), anchor)
  }

  /** `getChildren` leads from `b` down to `c`. */
  ghost predicate Reachable(v: View, b: Root, c: Root)
    requires WellFormed(v.headers)
  {
    forall y | y != b && IsAncestor(v.headers, b, y) && IsAncestor(v.headers, y, c) ::
      HasParent(v.headers, y) && y in Kids(v, Parent(v.headers, y))
  }

  /** The walk follows the path to every supported block that it can reach. */
  lemma {:induction false} WalkFollowsSupport(v: View, votes: Votes, n: nat, start: nat, b: Root, c: Root)
    requires ViewOk(v) && b in v.headers && n > 0 && |votes| <= n && start <= v.headers[b].slot
    requires IsAncestor(v.headers, b, c) && Supported(v.headers, votes, n, c) && Reachable(v, b, c)
    ensures IsAncestor(v.headers, c, Walk(v, votes, start, MinTargetScore(n), b))
    decreases Later(v.headers, b)
  {
    var f, m := v.headers, MinTargetScore(n);
    if b == c {
      WalkDescends(v, votes, start, m, b);
    } else {
      var k := ChildOnPath(f, b, c);
      SupportGrowsUp(f, votes, k, c);
      ScoreIsTwoThirds(n, |Supporters(f, votes, k)|);
      assert IsAncestor(f, b, k) by { assert IsAncestor(f, b, b); }
      assert k in Kids(v, b);
      var blocks := Eligible(v, votes, start, m, b);
      assert k in blocks;
      var d := Heaviest(f, votes, start, blocks);
      KidsAreLater(v, b, d);
      ScoreIsTwoThirds(n, |Supporters(f, votes, d)|);
      OneSupportedChild(f, votes, n, b, d, k);
      LaterShrinks(v, b, d);
      ReachableFurther(v, b, k, c);
      WalkFollowsSupport(v, votes, n, start, d, c);
    }
  }

  lemma ReachableFurther(v: View, b: Root, k: Root, c: Root)
    requires WellFormed(v.headers) && IsChild(v.headers, b, k) && Reachable(v, b, c)
    ensures Reachable(v, k, c)
  {
    assert IsAncestor(v.headers, b, k) by { assert IsAncestor(v.headers, b, b); }
    forall y | y != k && IsAncestor(v.headers, k, y) && IsAncestor(v.headers, y, c)
      ensures HasParent(v.headers, y) && y in Kids(v, Parent(v.headers, y))
    {
      AncestorTrans(v.headers, b, k, y);
      AncestorSlot(v.headers, k, y);
    }
  }

  /** Below `anchor` and above the finalized block, no block with two-thirds support comes after an empty slot. */
  ghost predicate NoSupportedGap(v: View, votes: Votes, n: nat, anchor: Root)
    requires WellFormed(v.headers)
  {
    forall y | y != anchor && IsAncestor(v.headers, anchor, y) && IsAncestor(v.headers, y, v.finalized)
               && HasParent(v.headers, y) && Supported(v.headers, votes, n, y) ::
      v.headers[y].slot == v.headers[Parent(v.headers, y)].slot + 1
  }

  /** From a cached anchor there is no such gap. */
  lemma CachedAnchor(v: View, votes: Votes, n: nat, anchor: Root)
    requires ViewOk(v) && anchor in v.children
    ensures NoSupportedGap(v, votes, n, anchor)
  {
    forall y | IsAncestor(v.headers, anchor, y) && IsAncestor(v.headers, y, v.finalized) ensures y == anchor {
      CachedHasNoGap(v, anchor, y);
    }
  }

  lemma SupportedIsReachable(v: View, votes: Votes, n: nat, anchor: Root, c: Root)
    requires ViewOk(v) && IsAncestor(v.headers, anchor, c) && Supported(v.headers, votes, n, c)
    requires NoSupportedGap(v, votes, n, anchor)
    ensures Reachable(v, anchor, c)
  {
    var f := v.headers;
    forall y | y != anchor && IsAncestor(f, anchor, y) && IsAncestor(f, y, c)
      ensures HasParent(f, y) && y in Kids(v, Parent(f, y))
    {
      var p := Parent(f, y);
      SupportGrowsUp(f, votes, y, c);
      if p !in v.children { StoredChildAbove(v, p, y); }
      assert Linked(v, p, y);
    }
  }

  /** A block on the way to the safe target has two-thirds support and was reached through `getChildren`. */
  lemma OnTheWay(v: View, votes: Votes, n: nat, anchor: Root, c: Root)
    requires ViewOk(v) && anchor in v.headers && c != anchor && IsAncestor(v.headers, anchor, c)
    requires IsAncestor(v.headers, c, SafeTarget(v, votes, n, anchor))
    ensures n > 0 ==> Supported(v.headers, votes, n, c)
    ensures HasParent(v.headers, c) && c in Kids(v, Parent(v.headers, c))
  {
    AncestorSlot(v.headers, anchor, c);
    WalkIsGreedy(v, votes, v.headers[anchor].slot, MinTargetScore(n), anchor, c);
    ScoreIsTwoThirds(n, |Supporters(v.headers, votes, c)|);
  }

  /** `c` is on the way to the safe target exactly when it has two-thirds support. */
  ghost predicate SupportDecides(v: View, votes: Votes, n: nat, anchor: Root, c: Root)
    requires ViewOk(v) && anchor in v.headers
  {
    IsAncestor(v.headers, c, SafeTarget(v, votes, n, anchor)) <==> Supported(v.headers, votes, n, c)
  }

  lemma SupportDecidesWithoutGap(v: View, votes: Votes, n: nat, anchor: Root, c: Root)
    requires ViewOk(v) && anchor in v.headers && n > 0 && |votes| <= n && NoSupportedGap(v, votes, n, anchor)
    requires c != anchor && IsAncestor(v.headers, anchor, c)
    ensures SupportDecides(v, votes, n, anchor, c)
  {
    if Supported(v.headers, votes, n, c) {
      SupportedIsReachable(v, votes, n, anchor, c);
      WalkFollowsSupport(v, votes, n, v.headers[anchor].slot, anchor, c);
    }
    if IsAncestor(v.headers, c, SafeTarget(v, votes, n, anchor)) {
      OnTheWay(v, votes, n, anchor, c);
    }
  }

  /** The safe target is the unique deepest block below the anchor with two-thirds support. */
  ghost predicate IsDeepestSupported(v: View, votes: Votes, n: nat, anchor: Root)
    requires ViewOk(v) && anchor in v.headers
  {
    forall c {:trigger SupportDecides(v, votes, n, anchor, c)} | c != anchor && IsAncestor(v.headers, anchor, c) ::
      SupportDecides(v, votes, n, anchor, c)
  }

  lemma SupportedHasNoGap(v: View, votes: Votes, n: nat, anchor: Root, y: Root)
    requires ViewOk(v) && anchor in v.headers && y != anchor && IsAncestor(v.headers, anchor, y)
    requires IsAncestor(v.headers, y, v.finalized) && HasParent(v.headers, y)
    requires IsAncestor(v.headers, y, SafeTarget(v, votes, n, anchor))
    ensures v.headers[y].slot == v.headers[Parent(v.headers, y)].slot + 1
  {
    OnTheWay(v, votes, n, anchor, y);
    ParentAboveFinalized(v, y);
    assert Linked(v, Parent(v.headers, y), y);
  }

  /**
   * The blocks below the anchor on the way to the safe target are exactly those with two-thirds support
   * if and only if no such block comes after an empty slot above the finalized block. A cached anchor
   * always meets the condition.
   */
  lemma SafeTargetIsDeepestSupported(v: View, votes: Votes, n: nat, anchor: Root)
    requires ViewOk(v) && anchor in v.headers && n > 0 && |votes| <= n
    ensures IsDeepestSupported(v, votes, n, anchor) <==> NoSupportedGap(v, votes, n, anchor)
    ensures anchor in v.children ==> NoSupportedGap(v, votes, n, anchor)
  {
    if NoSupportedGap(v, votes, n, anchor) {
      forall c | c != anchor && IsAncestor(v.headers, anchor, c) ensures SupportDecides(v, votes, n, anchor, c) {
        SupportDecidesWithoutGap(v, votes, n, anchor, c);
      }
    }
    if IsDeepestSupported(v, votes, n, anchor) {
      DeepestHasNoGap(v, votes, n, anchor);
    }
    if anchor in v.children { CachedAnchor(v, votes, n, anchor); }
  }

  lemma DeepestHasNoGap(v: View, votes: Votes, n: nat, anchor: Root)
    requires ViewOk(v) && anchor in v.headers && IsDeepestSupported(v, votes, n, anchor)
    ensures NoSupportedGap(v, votes, n, anchor)
  {
    forall y | y != anchor && IsAncestor(v.headers, anchor, y) && IsAncestor(v.headers, y, v.finalized)
               && HasParent(v.headers, y) && Supported(v.headers, votes, n, y)
      ensures v.headers[y].slot == v.headers[Parent(v.headers, y)].slot + 1
    {
      assert SupportDecides(v, votes, n, anchor, y);
      SupportedHasNoGap(v, votes, n, anchor, y);
    }
  }

  lemma ParentAboveFinalized(v: View, y: Root)
    requires ViewOk(v) && IsAncestor(v.headers, y, v.finalized) && HasParent(v.headers, y)
    ensures Parent(v.headers, y) !in v.children
  {
    var p := Parent(v.headers, y);
    assert IsAncestor(v.headers, p, y) by { assert IsAncestor(v.headers, p, p); }
    AncestorTrans(v.headers, p, y, v.finalized);
    AncestorSlot(v.headers, y, v.finalized);
    AboveFinalized(v, p);
  }

  /** More votes, from validators that had none, move the safe target only to a descendant-or-self. */
  lemma SafeTargetMovesForward(v: View, votes: Votes, more: Votes, n: nat, anchor: Root)
    requires ViewOk(v) && anchor in v.headers && n > 0 && |more| <= n
    requires forall x | x in votes :: x in more && more[x] == votes[x]
    ensures IsAncestor(v.headers, SafeTarget(v, votes, n, anchor), SafeTarget(v, more, n, anchor))
  {
    var f, start, m := v.headers, v.headers[anchor].slot, MinTargetScore(n);
    var s := SafeTarget(v, votes, n, anchor);
    WalkDescends(v, votes, start, m, anchor);
    WalkDescends(v, more, start, m, anchor);
    if s != anchor {
      assert IsAncestor(f, s, s);
      OnTheWay(v, votes, n, anchor, s);
      SubsetSize(Supporters(f, votes, s), Supporters(f, more, s));
      forall y | y != anchor && IsAncestor(f, anchor, y) && IsAncestor(f, y, s)
        ensures HasParent(f, y) && y in Kids(v, Parent(f, y))
      {
        OnTheWay(v, votes, n, anchor, y);
      }
      WalkFollowsSupport(v, more, n, start, anchor, s);
    }
  }

  /**
   * Without the bound on voters the filter can leave two children: with three validators, two votes
   * each on two sibling blocks give both of them two thirds.
   */
  lemma TooManyVotersBreakUniqueness(f: Forest, p: Root, c: Root, d: Root)
    requires WellFormed(f) && IsChild(f, p, c) && IsChild(f, p, d) && c != d
    ensures var votes: Votes := map[0 := c, 1 := c, 2 := d, 3 := d];
            |votes| > 3 && Supported(f, votes, 3, c) && Supported(f, votes, 3, d)
  {
    var votes: Votes := map[0 := c, 1 := c, 2 := d, 3 := d];
    assert votes.Keys == {0, 1, 2, 3};
    assert IsAncestor(f, c, c) && IsAncestor(f, d, d);
    SubsetSize({0, 1}, Supporters(f, votes, c));
    SubsetSize({2, 3}, Supporters(f, votes, d));
  }

  /**
   * One validator votes for a finalized block 2 at slot 2, whose parent 1 at slot 0 is stored only: the safe
   * target below 1 is 1 itself, although 2 has all the support.
   */
  lemma SafeTargetStopsAtAGap()
    ensures var v := View(map[1 := Node(0, None), 2 := Node(2, Some(1))], map[2 := []], map[0 := [1], 2 := [2]], 2);
            && ViewOk(v) && IsChild(v.headers, 1, 2) && Supported(v.headers, map[0 := 2], 1, 2)
            && SafeTarget(v, map[0 := 2], 1, 1) == 1
  {
    var v := View(map[1 := Node(0, None), 2 := Node(2, Some(1))], map[2 := []], map[0 := [1], 2 := [2]], 2);
    WalkStopsAtAGap();
    StoredEligible(v, map[0 := 2], 0, MinTargetScore(1), 1, 2);
    assert IsAncestor(v.headers, 2, 2);
    assert Supporters(v.headers, map[0 := 2], 2) == {0};
  }

  // ----- reorganisation of the head

  /** One parent up; None when the header of the block or of its parent is missing. */
  function Lift(f: Forest, cp: Checkpoint): Option<Checkpoint> {
    if HasParent(f, cp.root) then Some(Checkpoint(Parent(f, cp.root), f[Parent(f, cp.root)].slot)) else None
  }

  ghost predicate At(f: Forest, cp: Checkpoint) {
    cp.root in f && f[cp.root].slot == cp.slot
  }

  /** Every common ancestor of the two heads is one of the two cursors. */
  ghost predicate Lifted(f: Forest, from: Checkpoint, to: Checkpoint, a: Checkpoint, b: Checkpoint)
    requires WellFormed(f)
  {
    && At(f, a) && At(f, b) && IsAncestor(f, a.root, from.root) && IsAncestor(f, b.root, to.root)
    && forall d | IsAncestor(f, d, from.root) && IsAncestor(f, d, to.root) ::
         IsAncestor(f, d, a.root) && IsAncestor(f, d, b.root)
  }

  /** Lifting the later cursor, or either on a tie, keeps this. */
  lemma LiftKeeps(f: Forest, from: Checkpoint, to: Checkpoint, a: Checkpoint, b: Checkpoint, root: Root)
    requires WellFormed(f) && Lifted(f, from, to, a, b) && a.root != b.root
    requires IsAncestor(f, root, from.root) && IsAncestor(f, root, to.root)
    ensures b.slot <= a.slot ==> Lift(f, a).Some? && Lifted(f, from, to, Lift(f, a).value, b)
    ensures a.slot <= b.slot ==> Lift(f, b).Some? && Lifted(f, from, to, a, Lift(f, b).value)
  {
    forall d | IsAncestor(f, d, from.root) && IsAncestor(f, d, to.root)
      ensures b.slot <= a.slot ==> HasParent(f, a.root) && IsAncestor(f, d, Parent(f, a.root))
      ensures a.slot <= b.slot ==> HasParent(f, b.root) && IsAncestor(f, d, Parent(f, b.root))
    {
      if b.slot <= a.slot { LiftLater(f, a.root, b.root, d); }
      if a.slot <= b.slot { LiftLater(f, b.root, a.root, d); }
    }
    assert IsAncestor(f, root, from.root) && IsAncestor(f, root, to.root);
    if b.slot <= a.slot { ParentIsAbove(f, a.root, from.root); }
    if a.slot <= b.slot { ParentIsAbove(f, b.root, to.root); }
  }

  lemma ParentIsAbove(f: Forest, x: Root, y: Root)
    requires WellFormed(f) && HasParent(f, x) && IsAncestor(f, x, y)
    ensures IsAncestor(f, Parent(f, x), y)
  {
    assert IsAncestor(f, Parent(f, x), x) by { assert IsAncestor(f, Parent(f, x), Parent(f, x)); }
    AncestorTrans(f, Parent(f, x), x, y);
  }

  /**
   * The loop of `updateHead` that looks for a reorganisation. It fails exactly when the old head is no
   * longer stored; otherwise it tells whether the new head does not descend from the old one.
   */
  method DetectReorg(f: Forest, from: Checkpoint, to: Checkpoint, ghost root: Root) returns (r: Option<bool>)
    requires WellFormed(f) && At(f, to) && (from.root in f ==> At(f, from))
    requires from.root in f ==> IsAncestor(f, root, from.root) && IsAncestor(f, root, to.root)
    ensures r.Some? <==> from.root in f
    ensures r.Some? ==> (r.value <==> !IsAncestor(f, from.root, to.root))
  {
    var a, b := from, to;
    while a.root != b.root
      invariant At(f, b)
      invariant from.root !in f ==> a == from
      invariant from.root in f ==> Lifted(f, from, to, a, b)
      decreases a.slot + b.slot
    {
      if from.root in f {
        LiftKeeps(f, from, to, a, b, root);
      }
      if a.slot >= b.slot {
        var lifted := Lift(f, a);
        if lifted.None? {
          return None;
        }
        if a.slot == b.slot {
          LiftKeepsTie(f, from, to, a, b, root);
          var other := Lift(f, b);
          if other.None? {
            return None;
          }
          b := other.value;
        }
        a := lifted.value;
      } else {
        var lifted := Lift(f, b);
        if lifted.None? {
          return None;
        }
        b := lifted.value;
      }
    }
    if IsAncestor(f, from.root, to.root) {
      assert IsAncestor(f, from.root, from.root);
      AncestorSlot(f, from.root, a.root);
      AncestorSlot(f, a.root, from.root);
    }
    return Some(a.root != from.root);
  }

  lemma LiftKeepsTie(f: Forest, from: Checkpoint, to: Checkpoint, a: Checkpoint, b: Checkpoint, root: Root)
    requires WellFormed(f) && Lifted(f, from, to, a, b) && a.root != b.root && a.slot == b.slot
    requires IsAncestor(f, root, from.root) && IsAncestor(f, root, to.root)
    ensures Lift(f, a).Some? && Lift(f, b).Some? && Lifted(f, from, to, Lift(f, a).value, Lift(f, b).value)
  {
    LiftKeeps(f, from, to, a, b, root);
    var up := Lift(f, a).value;
    if up.root != b.root { LiftKeeps(f, from, to, up, b, root); }
  }

  /** Any two stored blocks have a common ancestor. */
  lemma CommonAncestor(v: View, a: Root, b: Root) returns (c: Root)
    requires ViewOk(v) && a in v.headers && b in v.headers
    ensures IsAncestor(v.headers, c, a) && IsAncestor(v.headers, c, b)
  {
    assert IsAncestor(v.headers, a, a) && IsAncestor(v.headers, b, b);
    if a in v.children && b in v.children {
      c := v.finalized;
    } else if a in v.children {
      AncestorTrans(v.headers, b, v.finalized, a);
      c := b;
    } else if b in v.children {
      AncestorTrans(v.headers, a, v.finalized, b);
      c := a;
    } else {
      AncestorsComparable(v.headers, a, b, v.finalized);
      c := if IsAncestor(v.headers, a, b) then a else b;
    }
  }
}
