/**
 * Blocks linked by parent links, with strictly increasing slots: the plain structure behind the
 * block tree, the slot index and the fork choice. A parent outside the map counts as absent.
 */
module Forests {
  import opened Types

  datatype Node = Node(slot: nat, parent: Option<Root>)

  type Forest = map<Root, Node>

  predicate HasParent(f: Forest, b: Root) {
    b in f && f[b].parent.Some? && f[b].parent.value in f
  }

  function Parent(f: Forest, b: Root): Root
    requires HasParent(f, b)
  {
    f[b].parent.value
  }

  ghost predicate WellFormed(f: Forest) {
    forall b | HasParent(f, b) :: f[Parent(f, b)].slot < f[b].slot
  }

  /** `a` is `b` or an ancestor of `b`. */
  ghost predicate IsAncestor(f: Forest, a: Root, b: Root)
    requires WellFormed(f)
    decreases if b in f then f[b].slot else 0
  {
    b in f && (a == b || (HasParent(f, b) && IsAncestor(f, a, Parent(f, b))))
  }

  lemma {:induction false} AncestorSlot(f: Forest, a: Root, b: Root)
    requires WellFormed(f) && IsAncestor(f, a, b)
    ensures a in f && f[a].slot <= f[b].slot
    ensures a != b ==> f[a].slot < f[b].slot
    decreases f[b].slot
  {
    if a != b {
      AncestorSlot(f, a, Parent(f, b));
    }
  }

  lemma {:induction false} AncestorTrans(f: Forest, a: Root, b: Root, c: Root)
    requires WellFormed(f) && IsAncestor(f, a, b) && IsAncestor(f, b, c)
    ensures IsAncestor(f, a, c)
    decreases f[c].slot
  {
    if b != c {
      AncestorTrans(f, a, b, Parent(f, c));
    }
  }

  /** The ancestors of one block lie on one path. */
  lemma {:induction false} AncestorsComparable(f: Forest, a: Root, b: Root, c: Root)
    requires WellFormed(f) && IsAncestor(f, a, c) && IsAncestor(f, b, c)
    ensures IsAncestor(f, a, b) || IsAncestor(f, b, a)
    decreases f[c].slot
  {
    if a != c && b != c {
      AncestorsComparable(f, a, b, Parent(f, c));
    }
  }

  /** On the path from `a` down to `b` there is a child of `a`. */
  lemma {:induction false} ChildOnPath(f: Forest, a: Root, b: Root) returns (c: Root)
    requires WellFormed(f) && IsAncestor(f, a, b) && a != b
    ensures HasParent(f, c) && Parent(f, c) == a && IsAncestor(f, c, b)
    decreases f[b].slot
  {
    if Parent(f, b) == a {
      c := b;
    } else {
      c := ChildOnPath(f, a, Parent(f, b));
    }
  }

  /** Equal slots and ancestry mean equality. */
  lemma AncestorUnique(f: Forest, a: Root, b: Root)
    requires WellFormed(f) && IsAncestor(f, a, b) && f[b].slot <= (if a in f then f[a].slot else 0)
    ensures a == b
  {
    AncestorSlot(f, a, b);
  }

  // ----- paths

  /** From `b` up to, but excluding, its ancestor `a`. */
  ghost function UpPath(f: Forest, a: Root, b: Root): (p: seq<Root>)
    requires WellFormed(f) && IsAncestor(f, a, b)
    ensures forall x | x in p :: x in f
    decreases f[b].slot
  {
    if a == b then [] else [b] + UpPath(f, a, Parent(f, b))
  }

  /** From below `a` down to `b`. */
  ghost function DownPath(f: Forest, a: Root, b: Root): (p: seq<Root>)
    requires WellFormed(f) && IsAncestor(f, a, b)
    ensures forall x | x in p :: x in f
    decreases f[b].slot
  {
    if a == b then [] else DownPath(f, a, Parent(f, b)) + [b]
  }

  function Reversed<T>(s: seq<T>): (r: seq<T>)
    ensures |r| == |s| && forall i | 0 <= i < |s| :: r[i] == s[|s| - 1 - i]
  {
    if s == [] then [] else Reversed(s[1..]) + [s[0]]
  }

  lemma {:induction false} ReversedUpPath(f: Forest, a: Root, b: Root)
    requires WellFormed(f) && IsAncestor(f, a, b)
    ensures Reversed(UpPath(f, a, b)) == DownPath(f, a, b)
    decreases f[b].slot
  {
    if a != b {
      ReversedUpPath(f, a, Parent(f, b));
      assert UpPath(f, a, b)[1..] == UpPath(f, a, Parent(f, b));
    }
  }

  lemma {:induction false} ExtendUpPath(f: Forest, a: Root, b: Root)
    requires WellFormed(f) && IsAncestor(f, a, b) && HasParent(f, a)
    ensures IsAncestor(f, Parent(f, a), b)
    ensures UpPath(f, Parent(f, a), b) == UpPath(f, a, b) + [a]
    decreases f[b].slot
  {
    AncestorTrans(f, Parent(f, a), a, b);
    AncestorSlot(f, a, b);
    if a != b {
      ExtendUpPath(f, a, Parent(f, b));
    }
  }

  lemma {:induction false} DownPathCompose(f: Forest, a: Root, b: Root, c: Root)
    requires WellFormed(f) && IsAncestor(f, a, b) && IsAncestor(f, b, c)
    ensures IsAncestor(f, a, c)
    ensures DownPath(f, a, c) == DownPath(f, a, b) + DownPath(f, b, c)
    decreases f[c].slot
  {
    AncestorTrans(f, a, b, c);
    if b != c {
      AncestorSlot(f, a, b);
      AncestorSlot(f, b, c);
      DownPathCompose(f, a, b, Parent(f, c));
    }
  }

  // ----- common ancestors

  /** The lowest common ancestor. */
  ghost predicate IsLca(f: Forest, c: Root, x: Root, y: Root)
    requires WellFormed(f)
  {
    && IsAncestor(f, c, x) && IsAncestor(f, c, y)
    && forall d | IsAncestor(f, d, x) && IsAncestor(f, d, y) :: IsAncestor(f, d, c)
  }

  lemma LcaUnique(f: Forest, c: Root, d: Root, x: Root, y: Root)
    requires WellFormed(f) && IsLca(f, c, x, y) && IsLca(f, d, x, y)
    ensures c == d
  {
    AncestorSlot(f, c, d);
    AncestorSlot(f, d, c);
  }

  /** The step of both parent walks: lifting the later block loses no common ancestor. */
  lemma LiftLater(f: Forest, x: Root, y: Root, d: Root)
    requires WellFormed(f) && x in f && y in f && x != y && f[y].slot <= f[x].slot
    requires IsAncestor(f, d, x) && IsAncestor(f, d, y)
    ensures HasParent(f, x) && IsAncestor(f, d, Parent(f, x))
  {
    if d == x {
      AncestorUnique(f, x, y);
    }
  }

  /**
   * `descend`: walks from `from` towards the root until `to`; `visited` is what the callback saw.
   * `root` is any common ancestor: the two blocks are in one tree.
   */
  method Descend(f: Forest, from: Root, to: Root, ghost root: Root) returns (ok: bool, visited: seq<Root>)
    requires WellFormed(f) && IsAncestor(f, root, from) && IsAncestor(f, root, to)
    ensures ok <==> IsAncestor(f, to, from)
    ensures ok ==> visited == UpPath(f, to, from)
  {
    visited := [];
    var x := from;
    AncestorSlot(f, root, to);
    while x != to
      invariant IsAncestor(f, root, x) && IsAncestor(f, x, from)
      invariant IsAncestor(f, to, x) <==> IsAncestor(f, to, from)
      invariant visited == UpPath(f, x, from)
      decreases f[x].slot
    {
      if f[x].slot <= f[to].slot {
        if IsAncestor(f, to, x) {
          AncestorSlot(f, to, x);
        }
        return false, visited;
      }
      ExtendUpPath(f, x, from);
      visited := visited + [x];
      x := Parent(f, x);
    }
    return true, visited;
  }

  /** `canDescend` holds exactly when `to` is `from` or one of its ancestors. */
  method CanDescend(f: Forest, from: Root, to: Root, ghost root: Root) returns (ok: bool)
    requires WellFormed(f) && IsAncestor(f, root, from) && IsAncestor(f, root, to)
    ensures ok <==> IsAncestor(f, to, from)
  {
    var visited;
    ok, visited := Descend(f, from, to, root);
  }

  function Indexes(f: Forest, path: seq<Root>): (r: seq<BlockIndex>)
    requires forall x | x in path :: x in f
    ensures |r| == |path| && forall i | 0 <= i < |path| :: r[i].hash == path[i] && r[i].slot == f[path[i]].slot
  {
    seq(|path|, i requires 0 <= i < |path| => BlockIndex(f[path[i]].slot, path[i]))
  }

  datatype Reorg = Reorg(common: BlockIndex, revert: seq<BlockIndex>, apply: seq<BlockIndex>)

  /** What a reorganisation from `from` to `to` is: up to the lowest common ancestor, then down. */
  ghost predicate IsReorg(f: Forest, from: Root, to: Root, r: Reorg)
    requires WellFormed(f)
  {
    && IsLca(f, r.common.hash, from, to)
    && r.common.slot == f[r.common.hash].slot
    && r.revert == Indexes(f, UpPath(f, r.common.hash, from))
    && r.apply == Indexes(f, DownPath(f, r.common.hash, to))
  }

  /** `reorg`: always lifts the side with the later slot, `to` on a tie. */
  method ComputeReorg(f: Forest, from: Root, to: Root, ghost root: Root) returns (r: Reorg)
    requires WellFormed(f) && IsAncestor(f, root, from) && IsAncestor(f, root, to)
    ensures IsReorg(f, from, to, r)
  {
    var revert: seq<Root>, apply: seq<Root> := [], [];
    var x, y := from, to;
    while x != y
      invariant IsAncestor(f, x, from) && IsAncestor(f, y, to)
      invariant IsAncestor(f, root, x) && IsAncestor(f, root, y)
      invariant forall d | IsAncestor(f, d, from) && IsAncestor(f, d, to) :: IsAncestor(f, d, x) && IsAncestor(f, d, y)
      invariant revert == UpPath(f, x, from) && apply == UpPath(f, y, to)
      decreases f[x].slot + f[y].slot
    {
      if f[x].slot > f[y].slot {
        forall d | IsAncestor(f, d, x) && IsAncestor(f, d, y) ensures HasParent(f, x) && IsAncestor(f, d, Parent(f, x)) {
          LiftLater(f, x, y, d);
        }
        ExtendUpPath(f, x, from);
        revert := revert + [x];
        x := Parent(f, x);
      } else {
        forall d | IsAncestor(f, d, x) && IsAncestor(f, d, y) ensures HasParent(f, y) && IsAncestor(f, d, Parent(f, y)) {
          LiftLater(f, y, x, d);
        }
        ExtendUpPath(f, y, to);
        apply := apply + [y];
        y := Parent(f, y);
      }
    }
    ReversedUpPath(f, y, to);
    r := Reorg(BlockIndex(f[y].slot, y), Indexes(f, revert), Indexes(f, Reversed(apply)));
  }

  /** A reorganisation is determined by its two ends. */
  lemma ReorgUnique(f: Forest, from: Root, to: Root, r: Reorg, q: Reorg)
    requires WellFormed(f) && IsReorg(f, from, to, r) && IsReorg(f, from, to, q)
    ensures r == q
  {
    LcaUnique(f, r.common.hash, q.common.hash, from, to);
  }

  // ----- sub-forests

  /** `g` has the blocks of `f` that are needed to climb from any of its own blocks. */
  ghost predicate Within(g: Forest, f: Forest) {
    forall b | b in g :: b in f && g[b].slot == f[b].slot && (HasParent(g, b) ==> g[b].parent == f[b].parent)
  }

  lemma {:induction false} AncestorWithin(g: Forest, f: Forest, a: Root, b: Root)
    requires WellFormed(g) && WellFormed(f) && Within(g, f) && IsAncestor(g, a, b)
    ensures IsAncestor(f, a, b)
    decreases g[b].slot
  {
    if a != b {
      AncestorWithin(g, f, a, Parent(g, b));
    }
  }

  /** No empty slots between `a` and its descendant `b`. */
  ghost predicate Gapless(f: Forest, a: Root, b: Root)
    requires WellFormed(f)
  {
    forall x | IsAncestor(f, a, x) && IsAncestor(f, x, b) && x != a && HasParent(f, x) ::
      f[x].slot == f[Parent(f, x)].slot + 1
  }
}
