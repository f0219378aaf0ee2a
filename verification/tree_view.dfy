/** The block tree as the fork choice reads it. */
module TreeViews {
  import opened Types
  import opened Forests
  import opened CachedTrees
  import opened BlockStorages

  /** Stored headers, child lists of cached blocks, the slot index and the finalized block. */
  datatype View = View(headers: Forest, children: Children, index: SlotIndex, finalized: Root)

  /**
   * `getChildren`: the child list of a cached block; for a block that is only stored, the index entry
   * of the next slot; nothing for an unknown block.
   */
  function Kids(v: View, b: Root): seq<Root> {
    if b in v.children then v.children[b]
    else if b in v.headers then GetBlockHash(v.index, v.headers[b].slot + 1)
    else []
  }

  /** `getChildren` answers with the child `c` of `b`: always for a cached block, else in the next slot only. */
  ghost predicate Linked(v: View, b: Root, c: Root) {
    IsChild(v.headers, b, c) && (b in v.children || v.headers[c].slot == v.headers[b].slot + 1)
  }

  ghost predicate KidsOk(v: View) {
    forall b, c | b in v.headers :: c in Kids(v, b) <==> Linked(v, b, c)
  }

  ghost predicate ViewOk(v: View) {
    && WellFormed(v.headers) && KidsOk(v)
    && v.finalized in v.children
    && (forall b | b in v.children :: b in v.headers && Distinct(v.children[b]))
    && (forall b, c | b in v.children && IsChild(v.headers, b, c) :: c in v.children)
    && (forall b | b in v.children :: IsAncestor(v.headers, v.finalized, b))
    && (forall b | b in v.headers && b !in v.children :: IsAncestor(v.headers, b, v.finalized))
  }

  lemma KidsAreLater(v: View, b: Root, c: Root)
    requires ViewOk(v) && b in v.headers && c in Kids(v, b)
    ensures c in v.headers && v.headers[b].slot < v.headers[c].slot && IsChild(v.headers, b, c)
    ensures b in v.children ==> c in v.children
  {
    assert Linked(v, b, c);
  }

  lemma LinkedCached(v: View, b: Root, c: Root)
    requires b in v.children && (c in v.children[b] <==> IsChild(v.headers, b, c))
    ensures c in Kids(v, b) <==> Linked(v, b, c)
  {
  }

  // ----- the index as a list of children

  /** The entry of the slot after `b` on the chain of `best` is the child of `b` there, if it has one. */
  lemma NextEntry(h: Forest, b: Root, best: Root, c: Root)
    requires WellFormed(h) && b in h && best in h && IsAncestor(h, b, best)
    ensures c in GetBlockHash(CanonicalIndex(h, best), h[b].slot + 1)
       <==> IsChild(h, b, c) && h[c].slot == h[b].slot + 1 && IsAncestor(h, c, best)
  {
    EntryIsAncestor(h, best, h[b].slot + 1, c);
    if c in h && IsAncestor(h, c, best) && h[c].slot == h[b].slot + 1 {
      NextOnChain(h, b, c, best);
    }
  }

  lemma StoredKid(v: View, b: Root, best: Root, c: Root)
    requires WellFormed(v.headers) && b in v.headers && b !in v.children && best in v.headers
    requires v.index == CanonicalIndex(v.headers, best) && IsAncestor(v.headers, b, best)
    requires IsChild(v.headers, b, c) ==> IsAncestor(v.headers, c, best)
    ensures c in Kids(v, b) <==> Linked(v, b, c)
  {
    NextEntry(v.headers, b, best, c);
  }

  lemma EntryIsAncestor(h: Forest, best: Root, slot: nat, c: Root)
    requires WellFormed(h) && best in h
    ensures c in GetBlockHash(CanonicalIndex(h, best), slot) <==> c in h && IsAncestor(h, c, best) && h[c].slot == slot
  {
    var entry := GetBlockHash(CanonicalIndex(h, best), slot);
    CanonicalMeaning(h, best, slot, c);
    if c in entry {
      CanonicalSingletons(h, best, slot);
      assert entry == [c];
    }
  }

  lemma NextOnChain(h: Forest, b: Root, c: Root, best: Root)
    requires WellFormed(h) && IsAncestor(h, b, best) && IsAncestor(h, c, best)
    requires b in h && c in h && h[c].slot == h[b].slot + 1
    ensures IsChild(h, b, c)
  {
    AncestorsComparable(h, b, c, best);
    if IsAncestor(h, c, b) { AncestorSlot(h, c, b); }
    var k := ChildOnPath(h, b, c);
    AncestorSlot(h, k, c);
  }

  // ----- blocks that are only stored

  /** A proper ancestor of the finalized block is not cached. */
  lemma AboveFinalized(v: View, b: Root)
    requires ViewOk(v) && b != v.finalized && IsAncestor(v.headers, b, v.finalized)
    ensures b in v.headers && b !in v.children
  {
    AncestorSlot(v.headers, b, v.finalized);
    if b in v.children { AncestorSlot(v.headers, v.finalized, b); }
  }

  /** A block that is only stored has one child, on the way to the finalized block. */
  lemma StoredChild(v: View, b: Root) returns (k: Root)
    requires ViewOk(v) && b in v.headers && b !in v.children
    ensures IsChild(v.headers, b, k) && IsAncestor(v.headers, k, v.finalized)
    ensures forall c | IsChild(v.headers, b, c) :: c == k
  {
    k := ChildOnPath(v.headers, b, v.finalized);
    forall c | IsChild(v.headers, b, c) ensures c == k {
      StoredChildAbove(v, b, c);
      AncestorsComparable(v.headers, c, k, v.finalized);
      SameParent(v.headers, b, c, k);
    }
  }

  lemma StoredChildAbove(v: View, b: Root, c: Root)
    requires ViewOk(v) && b !in v.children && IsChild(v.headers, b, c)
    ensures IsAncestor(v.headers, c, v.finalized)
  {
    if c in v.children && c != v.finalized {
      AncestorSlot(v.headers, v.finalized, b);
      AncestorSlot(v.headers, b, v.finalized);
    }
  }

  lemma SameParent(f: Forest, p: Root, c: Root, d: Root)
    requires WellFormed(f) && IsChild(f, p, c) && IsChild(f, p, d)
    requires IsAncestor(f, c, d) || IsAncestor(f, d, c)
    ensures c == d
  {
    if c != d {
      if IsAncestor(f, c, d) { AncestorSlot(f, c, p); } else { AncestorSlot(f, d, p); }
    }
  }

  /** From a cached block there is no way up to the finalized one to have a gap. */
  lemma CachedHasNoGap(v: View, b: Root, y: Root)
    requires ViewOk(v) && b in v.children && IsAncestor(v.headers, b, y) && IsAncestor(v.headers, y, v.finalized)
    ensures y == b
  {
    AncestorSlot(v.headers, v.finalized, b);
    AncestorSlot(v.headers, b, y);
    AncestorSlot(v.headers, y, v.finalized);
  }

  /** The gaps above the finalized block, one step at a time. */
  lemma GaplessStep(v: View, b: Root, k: Root)
    requires ViewOk(v) && b !in v.children && IsChild(v.headers, b, k) && IsAncestor(v.headers, k, v.finalized)
    ensures Gapless(v.headers, b, v.finalized)
       <==> v.headers[k].slot == v.headers[b].slot + 1 && Gapless(v.headers, k, v.finalized)
  {
    var f := v.headers;
    assert IsAncestor(f, b, k) by { assert IsAncestor(f, b, b); }
    forall y | IsAncestor(f, b, y) && IsAncestor(f, y, v.finalized) && y != b
      ensures y == k || (IsAncestor(f, k, y) && y != k)
    {
      AncestorsComparable(f, y, k, v.finalized);
      if y != k && IsAncestor(f, y, k) {
        AncestorSlot(f, b, y);
        AncestorSlot(f, y, b);
      }
    }
    forall y | IsAncestor(f, k, y) ensures IsAncestor(f, b, y) && y != b {
      AncestorTrans(f, b, k, y);
      AncestorSlot(f, k, y);
    }
  }
}
