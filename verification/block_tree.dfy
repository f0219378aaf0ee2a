/**
 * The block tree: the cached tree together with the database. The invariant ties the two to the
 * plain parent-link tree of stored headers: the slot index is exactly the chain of the best
 * block, the leaf list is exactly the leaves, and the stored blocks are exactly the cached ones and
 * the finalized chain below them.
 */
module BlockTrees {
  import opened Types
  import opened RootOrder
  import opened Forests
  import opened CachedTrees
  import opened BlockStorages
  import opened TreeViews

  datatype TreeResult = Done | NoParent | HeaderNotFound | BlockIsNotLeaf | BlockOnDeadEnd | BlockNotFound

  /** The cached nodes are stored, with the same slot and parent; the rest is the finalized chain. */
  ghost predicate StoredOk(f: Forest, root: Root, h: Forest, anchor: Root) {
    && TreeOk(h, anchor)
    && Within(f, h)
    && (forall b | b in h :: b in f || IsAncestor(h, b, root))
  }

  // ----- stored and cached ancestry agree

  /** A stored block whose parent is cached is cached. */
  lemma CachedBelowCached(f: Forest, root: Root, h: Forest, anchor: Root, c: Root)
    requires TreeOk(f, root) && StoredOk(f, root, h, anchor) && HasParent(h, c) && Parent(h, c) in f
    ensures c in f && c != root && IsChild(f, Parent(h, c), c)
  {
    var p := Parent(h, c);
    RootIsAncestor(f, root, p);
    AncestorWithin(f, h, root, p);
    AncestorSlot(h, root, p);
    if c !in f { AncestorSlot(h, c, root); }
  }

  lemma {:induction false} StoredAncestor(f: Forest, root: Root, h: Forest, anchor: Root, a: Root, b: Root)
    requires TreeOk(f, root) && StoredOk(f, root, h, anchor) && b in f
    ensures IsAncestor(h, a, b) <==> IsAncestor(f, a, b) || IsAncestor(h, a, root)
    decreases f[b].slot
  {
    RootIsAncestor(f, root, b);
    AncestorWithin(f, h, root, b);
    if b != root {
      StoredAncestor(f, root, h, anchor, a, Parent(f, b));
    }
  }

  lemma {:induction false} StoredPaths(f: Forest, root: Root, h: Forest, anchor: Root, a: Root, b: Root)
    requires TreeOk(f, root) && StoredOk(f, root, h, anchor) && IsAncestor(f, a, b)
    ensures IsAncestor(h, a, b) && UpPath(h, a, b) == UpPath(f, a, b) && DownPath(h, a, b) == DownPath(f, a, b)
    decreases f[b].slot
  {
    AncestorWithin(f, h, a, b);
    if a != b {
      StoredPaths(f, root, h, anchor, a, Parent(f, b));
    }
  }

  /** A reorganisation of the cached tree is the same reorganisation of the stored one. */
  lemma StoredReorg(f: Forest, root: Root, h: Forest, anchor: Root, from: Root, to: Root, r: Reorg)
    requires TreeOk(f, root) && StoredOk(f, root, h, anchor) && from in f && to in f && IsReorg(f, from, to, r)
    ensures IsReorg(h, from, to, r)
  {
    var c := r.common.hash;
    StoredPaths(f, root, h, anchor, c, from);
    StoredPaths(f, root, h, anchor, c, to);
    IndexesWithin(f, h, UpPath(f, c, from));
    IndexesWithin(f, h, DownPath(f, c, to));
    RootIsAncestor(f, root, c);
    AncestorWithin(f, h, root, c);
    forall d | IsAncestor(h, d, from) && IsAncestor(h, d, to) ensures IsAncestor(h, d, c) {
      StoredAncestor(f, root, h, anchor, d, from);
      StoredAncestor(f, root, h, anchor, d, to);
      StoredAncestor(f, root, h, anchor, d, c);
      if IsAncestor(h, d, root) { AncestorTrans(h, d, root, c); }
    }
  }

  // ----- adding a block

  lemma AddStored(f: Forest, root: Root, h: Forest, anchor: Root, hash: Root, slot: nat, parent: Root)
    requires TreeOk(f, root) && StoredOk(f, root, h, anchor)
    requires parent in f && f[parent].slot < slot && hash !in f
    requires hash in h ==> h[hash] == Node(slot, Some(parent))
    ensures hash !in h
    ensures StoredOk(f[hash := Node(slot, Some(parent))], root, h[hash := Node(slot, Some(parent))], anchor)
  {
    if hash in h {
      CachedBelowCached(f, root, h, anchor, hash);
    }
    var node := Node(slot, Some(parent));
    var h' := h[hash := node];
    assert TreeOk(h', anchor) by { assert forall b | b in h && b != anchor :: HasParent(h, b); }
    forall b | b in h && IsAncestor(h, b, root) ensures IsAncestor(h', b, root) {
      AncestorFrame(h, h', b, root);
    }
  }

  lemma AddIndex(h: Forest, anchor: Root, hash: Root, node: Node, best: Root)
    requires TreeOk(h, anchor) && TreeOk(h[hash := node], anchor) && hash !in h && best in h
    ensures CanonicalIndex(h[hash := node], best) == CanonicalIndex(h, best)
  {
    CanonicalFrame(h, h[hash := node], best);
  }

  lemma DropNothing(h: Forest)
    ensures h - Hashes([]) == h
  {
  }

  /** Storing a new block, or a known one again, before the cached tree is updated. */
  lemma PutKeepsStored(f: Forest, root: Root, h: Forest, anchor: Root, hash: Root, slot: nat, parent: Root, best: Root)
    requires TreeOk(f, root) && StoredOk(f, root, h, anchor) && best in f
    requires parent in f && f[parent].slot < slot
    requires hash in h ==> h[hash] == Node(slot, Some(parent))
    ensures StoredOk(if hash in f then f else f[hash := Node(slot, Some(parent))], root,
                     h[hash := Node(slot, Some(parent))], anchor)
    ensures CanonicalIndex(h[hash := Node(slot, Some(parent))], best) == CanonicalIndex(h, best)
  {
    if hash in f {
      assert h[hash := Node(slot, Some(parent))] == h;
    } else {
      AddStored(f, root, h, anchor, hash, slot, parent);
      AddIndex(h, anchor, hash, Node(slot, Some(parent)), best);
    }
  }

  // ----- dropping blocks

  /** Removing blocks whose stored children are removed too leaves a tree, if the root stays. */
  lemma DropTree(h: Forest, anchor: Root, gone: set<Root>)
    requires TreeOk(h, anchor) && anchor !in gone
    requires forall p, c | p in gone && IsChild(h, p, c) :: c in gone
    ensures TreeOk(h - gone, anchor)
  {
    var h' := h - gone;
    forall b | b in h' && b != anchor ensures HasParent(h', b) && Parent(h', b) == Parent(h, b) {
      assert IsChild(h, Parent(h, b), b);
    }
  }

  lemma DropAncestor(h: Forest, gone: set<Root>, b: Root, r: Root)
    requires WellFormed(h) && WellFormed(h - gone) && IsAncestor(h, b, r)
    requires forall x | x in gone :: !IsAncestor(h, x, r)
    ensures IsAncestor(h - gone, b, r)
  {
    AncestorFrame(h, h - gone, b, r);
  }

  /** A stored block outside the cache is above every cached one. */
  lemma StoredAbove(f: Forest, root: Root, h: Forest, anchor: Root, b: Root, r: Root)
    requires TreeOk(f, root) && StoredOk(f, root, h, anchor) && r in f && b in h && b !in f
    ensures IsAncestor(h, b, r)
  {
    RootIsAncestor(f, root, r);
    AncestorWithin(f, h, root, r);
    AncestorTrans(h, b, root, r);
  }

  /** Removing blocks that have no stored child outside the removed ones, and not the ancestors of `root'`. */
  lemma DropStored(f: Forest, root: Root, h: Forest, anchor: Root, gone: set<Root>, f': Forest, root': Root)
    requires TreeOk(f, root) && StoredOk(f, root, h, anchor) && root' in f
    requires forall b | b in gone :: !IsAncestor(h, b, root')
    requires forall p, c | p in gone && IsChild(h, p, c) :: c in gone
    requires Within(f', f) && forall b | b in f :: b in f' || b in gone || IsAncestor(h, b, root')
    requires f'.Keys !! gone
    ensures StoredOk(f', root', h - gone, anchor)
  {
    var h' := h - gone;
    RootIsAncestor(h, anchor, root');
    DropTree(h, anchor, gone);
    forall b | b in h' ensures b in f' || IsAncestor(h', b, root') {
      if b !in f' {
        if b !in f { StoredAbove(f, root, h, anchor, b, root'); }
        DropAncestor(h, gone, b, root');
      }
    }
  }

  lemma DropIndex(h: Forest, gone: set<Root>, best: Root)
    requires WellFormed(h) && best in h && forall b | b in gone :: !IsAncestor(h, b, best)
    ensures WellFormed(h - gone) && best in h - gone
    ensures CanonicalIndex(h - gone, best) == CanonicalIndex(h, best)
  {
    var h' := h - gone;
    assert forall b | HasParent(h', b) :: HasParent(h, b) && Parent(h', b) == Parent(h, b);
    assert IsAncestor(h, best, best);
    forall x | x in h && IsAncestor(h, x, best)
      ensures x in h' && h'[x] == h[x] && (HasParent(h', x) <==> HasParent(h, x))
    {
      if HasParent(h, x) {
        assert IsAncestor(h, Parent(h, x), x) by { assert IsAncestor(h, Parent(h, x), Parent(h, x)); }
        AncestorTrans(h, Parent(h, x), x, best);
      }
    }
    CanonicalFrame(h, h', best);
  }

  /** The blocks cut off by finalizing `r`: no stored child is kept, and none is above the new best. */
  lemma CutIsDroppable(f: Forest, root: Root, h: Forest, anchor: Root, r: Root, best: Root)
    requires TreeOk(f, root) && StoredOk(f, root, h, anchor) && r in f && IsAncestor(f, r, best)
    ensures root !in Side(f, r)
    ensures forall b | b in Side(f, r) :: !IsAncestor(h, b, r) && !IsAncestor(h, b, best)
    ensures forall p, c | p in Side(f, r) && IsChild(h, p, c) :: c in Side(f, r)
  {
    RootIsAncestor(f, root, r);
    forall b | b in Side(f, r) ensures !IsAncestor(h, b, r) && !IsAncestor(h, b, best) {
      RootIsAncestor(f, root, b);
      AncestorWithin(f, h, root, b);
      StoredAncestor(f, root, h, anchor, b, r);
      StoredAncestor(f, root, h, anchor, b, best);
      if IsAncestor(h, b, root) {
        AncestorSlot(h, b, root);
        AncestorSlot(h, root, b);
      }
      if IsAncestor(f, b, best) {
        AncestorsComparable(f, b, r, best);
      }
    }
    forall p, c | p in Side(f, r) && IsChild(h, p, c) ensures c in Side(f, r) {
      CachedBelowCached(f, root, h, anchor, c);
      KidsOfCutAreCut(f, r, p, c);
    }
  }

  lemma FinalizeStored(f: Forest, root: Root, h: Forest, anchor: Root, r: Root)
    requires TreeOk(f, root) && StoredOk(f, root, h, anchor) && r in f
    ensures StoredOk(Subtree(f, r), r, h - Side(f, r), anchor)
  {
    CutIsDroppable(f, root, h, anchor, r, r);
    SubtreeOk(f, r);
    forall b | b in f ensures b in Subtree(f, r) || b in Side(f, r) || IsAncestor(h, b, r) {
      if IsAncestor(f, b, r) { AncestorWithin(f, h, b, r); }
    }
    DropStored(f, root, h, anchor, Side(f, r), Subtree(f, r), r);
  }

  lemma RemoveStored(f: Forest, ch: Children, root: Root, h: Forest, anchor: Root, hash: Root, best: Root)
    requires TreeOk(f, root) && ChildrenOk(f, ch) && StoredOk(f, root, h, anchor)
    requires hash in f && ch[hash] == [] && hash != root && best in f && best != hash
    ensures StoredOk(f - {hash}, root, h - {hash}, anchor)
    ensures !IsAncestor(h, hash, best)
  {
    forall c ensures !IsChild(f, hash, c) {
      assert c in ch[hash] <==> IsChild(f, hash, c);
    }
    LeafAboveNothing(f, root, h, anchor, hash, best);
    LeafAboveNothing(f, root, h, anchor, hash, root);
    forall c ensures !IsChild(h, hash, c) {
      if IsChild(h, hash, c) { CachedBelowCached(f, root, h, anchor, c); }
    }
    RemoveKeepsTree(f, root, hash);
    DropStored(f, root, h, anchor, {hash}, f - {hash}, root);
  }

  lemma LeafAboveNothing(f: Forest, root: Root, h: Forest, anchor: Root, leaf: Root, b: Root)
    requires TreeOk(f, root) && StoredOk(f, root, h, anchor) && leaf in f && b in f && b != leaf && leaf != root
    requires forall c :: !IsChild(f, leaf, c)
    ensures !IsAncestor(h, leaf, b)
  {
    StoredAncestor(f, root, h, anchor, leaf, b);
    RootIsAncestor(f, root, leaf);
    AncestorWithin(f, h, root, leaf);
    if IsAncestor(h, leaf, root) {
      AncestorSlot(h, leaf, root);
      AncestorSlot(h, root, leaf);
    }
    if IsAncestor(f, leaf, b) {
      var c := ChildOnPath(f, leaf, b);
      assert IsChild(f, leaf, c);
    }
  }

  /** The ancestor-or-self chain of `b`, newest first. */
  ghost function AncestorChain(f: Forest, b: Root): seq<Root>
    requires WellFormed(f) && b in f
    decreases f[b].slot
  {
    [b] + if HasParent(f, b) then AncestorChain(f, Parent(f, b)) else []
  }

  function Take(s: seq<Root>, k: nat): seq<Root> {
    if k < |s| then s[..k] else s
  }

  /** Up to `maximum` ancestors-or-self of a stored block. */
  ghost function DescendingChain(h: Forest, to: Root, maximum: nat): Option<seq<Root>>
    requires WellFormed(h)
  {
    if maximum == 0 then Some([])
    else if to !in h then None
    else Some(Take(AncestorChain(h, to), maximum))
  }

  lemma ChainStep(h: Forest, front: seq<Root>, b: Root)
    requires WellFormed(h) && HasParent(h, b)
    ensures front + AncestorChain(h, b) == (front + [b]) + AncestorChain(h, Parent(h, b))
  {
  }

  /** The part of the climb inside the cached tree. */
  method ClimbCached(f: Forest, ghost root: Root, ghost h: Forest, ghost anchor: Root, to: Root, maximum: nat)
    returns (chain: seq<Root>, hash: Root)
    requires TreeOk(f, root) && StoredOk(f, root, h, anchor) && to in f
    ensures |chain| <= maximum && hash in h && chain + AncestorChain(h, hash) == AncestorChain(h, to)
  {
    chain, hash := [], to;
    while maximum > |chain| && HasParent(f, hash)
      invariant hash in f && |chain| <= maximum
      invariant chain + AncestorChain(h, hash) == AncestorChain(h, to)
      decreases f[hash].slot
    {
      ChainStep(h, chain, hash);
      chain := chain + [hash];
      hash := Parent(f, hash);
    }
  }

  /** The part of the climb inside the database. */
  method ClimbStored(h: Forest, ghost to: Root, start: seq<Root>, from: Root, maximum: nat) returns (r: Option<seq<Root>>)
    requires WellFormed(h) && |start| <= maximum
    requires to in h ==> from in h && start + AncestorChain(h, from) == AncestorChain(h, to)
    requires to !in h ==> from == to && start == []
    ensures r == DescendingChain(h, to, maximum)
  {
    var chain, hash, more := start, from, true;
    while maximum > |chain| && more
      invariant |chain| <= maximum
      invariant to in h && more ==> hash in h && chain + AncestorChain(h, hash) == AncestorChain(h, to)
      invariant to in h && !more ==> chain == AncestorChain(h, to)
      invariant to !in h ==> hash == to && chain == [] && more
      decreases more, if hash in h then h[hash].slot else 0
    {
      if hash !in h {
        return None;
      }
      if HasParent(h, hash) {
        ChainStep(h, chain, hash);
        chain := chain + [hash];
        hash := Parent(h, hash);
      } else {
        chain := chain + [hash];
        more := false;
      }
    }
    return Some(chain);
  }

  /** The justified block is a proper ancestor of `b`. */
  ghost predicate JustifiedAbove(f: Forest, justified: BlockIndex, b: Root)
    requires WellFormed(f)
  {
    && HasParent(f, b)
    && IsAncestor(f, justified.hash, Parent(f, b))
    && justified.hash in f && f[justified.hash].slot == justified.slot
  }

  /** The justified block is cached under its slot, or no longer stored. */
  ghost predicate JustifiedOk(f: Forest, justified: BlockIndex, h: Forest) {
    (justified.hash in f && f[justified.hash].slot == justified.slot) || justified.hash !in h
  }

  /** Where `onBlock` moves the justified block for a state that justifies `jus`. */
  ghost function NextJustified(f: Forest, before: BlockIndex, jus: Checkpoint): BlockIndex
    requires WellFormed(f)
  {
    if jus.slot > before.slot && jus.root != before.hash && jus.root in f && JustifiedAbove(f, before, jus.root)
    then BlockIndex(jus.slot, jus.root) else before
  }

  /** What of a block tree the checkpoints move. */
  datatype Snapshot = Snapshot(nodes: Forest, root: Root, headers: Forest, justified: BlockIndex)

  ghost function WithNode(s: Snapshot, hash: Root, node: Node): Snapshot {
    s.(nodes := s.nodes[hash := node], headers := s.headers[hash := node])
  }

  /** The one failure: a later justified block that is stored and not cached. */
  ghost function FollowAnswer(s: Snapshot, jus: Checkpoint): TreeResult {
    if jus.slot > s.justified.slot && jus.root != s.justified.hash && jus.root !in s.nodes then BlockNotFound else Done
  }

  /**
   * The checkpoints of a state were followed: the justified block is the next one, and a later finalized
   * block is the root with its descendants, without the blocks that finality cuts off; nothing is
   * finalized for an older one, or after the failure.
   */
  ghost predicate Followed(s: Snapshot, jus: Checkpoint, fin: Checkpoint, r: TreeResult, s': Snapshot) {
    && r == FollowAnswer(s, jus)
    && WellFormed(s.nodes) && s.root in s.nodes && s'.justified == NextJustified(s.nodes, s.justified, jus)
    && if r == Done && fin.slot > s.nodes[s.root].slot
       then
         && fin.root in s.nodes && s'.root == fin.root
         && s'.nodes == Subtree(s.nodes, fin.root) && s'.headers == s.headers - Side(s.nodes, fin.root)
       else s'.root == s.root && s'.nodes == s.nodes && s'.headers == s.headers
  }

  /** The tree's justified block follows the one of a state exactly from a cached ancestor in an earlier slot. */
  lemma JustifiedFollowsExactly(f: Forest, before: BlockIndex, jus: Checkpoint)
    requires WellFormed(f) && (jus.root in f ==> f[jus.root].slot == jus.slot)
    ensures NextJustified(f, before, jus) == BlockIndex(jus.slot, jus.root) <==>
            || before == BlockIndex(jus.slot, jus.root)
            || (&& before.slot < jus.slot && IsAncestor(f, before.hash, jus.root)
                && before.hash in f && f[before.hash].slot == before.slot)
  {
    if IsAncestor(f, before.hash, jus.root) { AncestorSlot(f, before.hash, jus.root); }
  }

  /** Following the checkpoints fails only when the justified block of the tree has been pruned. */
  lemma FailureMeansPruned(s: Snapshot, anchor: Root, jus: Checkpoint)
    requires TreeOk(s.nodes, s.root) && StoredOk(s.nodes, s.root, s.headers, anchor)
    requires JustifiedOk(s.nodes, s.justified, s.headers)
    requires jus.root in s.headers && s.headers[jus.root].slot == jus.slot
    ensures FollowAnswer(s, jus) != Done ==> s.justified.hash !in s.headers
  {
    if FollowAnswer(s, jus) != Done && s.justified.hash in s.headers {
      StoredAbove(s.nodes, s.root, s.headers, anchor, jus.root, s.justified.hash);
      AncestorSlot(s.headers, jus.root, s.justified.hash);
    }
  }

  /** Finalizing a block that the justified one is not properly above keeps this. */
  lemma JustifiedSurvives(f: Forest, root: Root, h: Forest, anchor: Root, justified: BlockIndex, fin: Root)
    requires TreeOk(f, root) && StoredOk(f, root, h, anchor) && fin in f && JustifiedOk(f, justified, h)
    requires justified.hash != fin ==> !IsAncestor(f, justified.hash, fin)
    ensures JustifiedOk(Subtree(f, fin), justified, h - Side(f, fin))
  {
    assert IsAncestor(f, fin, fin);
  }

  /** A stored block below a cached one is cached, and below it in the cache too. */
  lemma {:induction false} StoredBelowCached(f: Forest, root: Root, h: Forest, anchor: Root, a: Root, b: Root)
    requires TreeOk(f, root) && StoredOk(f, root, h, anchor) && a in f && IsAncestor(h, a, b)
    ensures b in f && IsAncestor(f, a, b)
    decreases h[b].slot
  {
    if a != b {
      StoredBelowCached(f, root, h, anchor, a, Parent(h, b));
      CachedBelowCached(f, root, h, anchor, b);
    }
  }

  /**
   * Why the order of `onBlock` is right: when a block comes to be finalized, the justified block is not
   * properly above it, because in that case it has just been moved to the new justified block.
   */
  lemma NotAboveFinalized(f: Forest, root: Root, h: Forest, anchor: Root, before: BlockIndex, jus: Checkpoint,
                          fin: Checkpoint)
    requires TreeOk(f, root) && StoredOk(f, root, h, anchor) && fin.root in f && IsAncestor(h, fin.root, jus.root)
    requires f[fin.root].slot == fin.slot && jus.root in h && h[jus.root].slot == jus.slot && JustifiedOk(f, before, h)
    ensures var after := NextJustified(f, before, jus);
            && JustifiedOk(f, after, h)
            && (after.hash != fin.root ==> !IsAncestor(f, after.hash, fin.root))
  {
    var after := NextJustified(f, before, jus);
    StoredBelowCached(f, root, h, anchor, fin.root, jus.root);
    AncestorSlot(f, fin.root, jus.root);
    if after.hash != fin.root && IsAncestor(f, after.hash, fin.root) {
      AncestorSlot(f, after.hash, fin.root);
      AncestorTrans(f, after.hash, fin.root, jus.root);
    }
  }

  class BlockTree {
    const tree: CachedTree
    const storage: BlockStorage
    /** The oldest stored block. */
    ghost const anchor: Root

    ghost predicate Valid()
      reads this, tree, storage
    {
      && tree.Valid()
      && StoredOk(tree.nodes, tree.root, storage.headers, anchor)
      && storage.index == CanonicalIndex(storage.headers, tree.best)
      && storage.LeavesInSync()
      && storage.storedLeaves == Some(SortedRoots(tree.leaves.Keys))
    }

    ghost function Now(): Snapshot
      reads this, tree, storage
    {
      Snapshot(tree.nodes, tree.root, storage.headers, tree.justified)
    }

    /** What the fork choice reads from the tree: in every valid tree it is well formed. */
    function GetView(): (v: View)
      reads this, tree, storage
      requires Valid()
      ensures ViewOk(v)
    {
      ViewFromTree(tree.nodes, tree.children, tree.root, tree.best, storage.headers, anchor);
      View(storage.headers, tree.children, storage.index, tree.root)
    }

    constructor (block: BlockIndex)
      ensures Valid() && fresh(tree) && fresh(storage)
      ensures tree.root == tree.best == block.hash && tree.justified == block
      ensures tree.nodes == storage.headers == map[block.hash := Node(block.slot, None)]
    {
      var t := new CachedTree(block);
      var s := new BlockStorage(block);
      tree, storage, anchor := t, s, block.hash;
      new;
      assert tree.leaves.Keys == {block.hash};
      SortedIsUnique([block.hash], SortedRoots({block.hash}));
    }

    /**
     * `reorgAndPrune`: writes the leaves, moves the index along the reorganisation, removes pruned
     * blocks. `from` is the best block before the change.
     */
    method ReorgAndPruneStorage(changes: ReorgAndPrune, ghost from: Root)
      requires storage.LeavesInSync() && WellFormed(storage.headers)
      requires from in storage.headers && tree.best in storage.headers
      requires storage.index == CanonicalIndex(storage.headers, from)
      requires changes.reorg.None? ==> from == tree.best
      requires changes.reorg.Some? ==> IsReorg(storage.headers, from, tree.best, changes.reorg.value)
      requires forall i | 0 <= i < |changes.prune| ::
                 !IsAncestor(storage.headers, changes.prune[i].hash, tree.best)
      modifies storage
      ensures storage.LeavesInSync() && storage.storedLeaves == Some(SortedRoots(tree.leaves.Keys))
      ensures storage.headers == old(storage.headers) - Hashes(changes.prune)
      ensures WellFormed(storage.headers) && tree.best in storage.headers
      ensures storage.index == CanonicalIndex(storage.headers, tree.best)
    {
      ghost var h := storage.headers;
      storage.SetBlockTreeLeaves(tree.leaves.Keys);
      if changes.reorg.Some? {
        storage.ApplyReorg(changes.reorg.value, from, tree.best);
      }
      storage.RemoveBlocks(changes.prune, tree.best);
      DropIndex(h, Hashes(changes.prune), tree.best);
    }

    /** Adds a block under its parent. Equal hashes mean equal headers. */
    method AddBlock(hash: Root, slot: nat, parent: Root) returns (r: TreeResult)
      requires Valid()
      requires parent in tree.nodes ==> tree.nodes[parent].slot < slot
      requires hash in storage.headers ==> storage.headers[hash] == Node(slot, Some(parent))
      modifies tree, storage
      ensures Valid() && tree.root == old(tree.root) && tree.justified == old(tree.justified)
      ensures r == if parent in old(tree.nodes) then Done else NoParent
      ensures r == NoParent ==>
                && tree.nodes == old(tree.nodes) && tree.best == old(tree.best)
                && storage.headers == old(storage.headers) && storage.index == old(storage.index)
      ensures r == Done ==> storage.headers == old(storage.headers)[hash := Node(slot, Some(parent))]
      ensures r == Done ==>
                tree.nodes == if hash in old(tree.nodes) then old(tree.nodes)
                              else old(tree.nodes)[hash := Node(slot, Some(parent))]
      ensures r == Done ==>
                tree.best == if hash !in old(tree.nodes) && slot > old(tree.nodes[tree.best].slot) then hash
                             else old(tree.best)
    {
      if parent !in tree.nodes {
        return NoParent;
      }
      ghost var f, h, from := tree.nodes, storage.headers, tree.best;
      storage.PutBlock(hash, Node(slot, Some(parent)));
      var reorg := tree.Add(hash, slot, parent);
      PutKeepsStored(f, tree.root, h, anchor, hash, slot, parent, from);
      if reorg.Some? {
        StoredReorg(tree.nodes, tree.root, storage.headers, anchor, from, tree.best, reorg.value);
      }
      DropNothing(storage.headers);
      ReorgAndPruneStorage(ReorgAndPrune(reorg, []), from);
      return Done;
    }

    /** The same for a block that is not stored yet, under a cached parent. */
    method AddNew(hash: Root, slot: nat, parent: Root)
      requires Valid() && hash !in storage.headers && parent in tree.nodes && tree.nodes[parent].slot < slot
      modifies tree, storage
      ensures Valid() && Now() == WithNode(old(Now()), hash, Node(slot, Some(parent)))
    {
      var done := AddBlock(hash, slot, parent);
    }

    /** Moves the justified block forward, only to a descendant of the current one. */
    method SetJustified(hash: Root) returns (r: TreeResult)
      requires Valid()
      modifies tree`justified
      ensures Valid()
      ensures tree.justified ==
              if hash != old(tree.justified.hash) && hash in tree.nodes
                 && JustifiedAbove(tree.nodes, old(tree.justified), hash)
              then BlockIndex(tree.nodes[hash].slot, hash) else old(tree.justified)
      ensures r == if hash == old(tree.justified.hash) || hash in tree.nodes then Done
                   else if hash !in storage.headers then HeaderNotFound
                   else if storage.headers[hash].slot >= tree.justified.slot then BlockNotFound
                   else Done
    {
      if hash == tree.justified.hash {
        return Done;
      }
      if hash in tree.nodes {
        ghost var f := tree.nodes;
        var x := hash;
        while HasParent(tree.nodes, x)
          invariant x in f && tree.nodes == f && tree.justified == old(tree.justified)
          invariant JustifiedAbove(f, tree.justified, x) <==> JustifiedAbove(f, tree.justified, hash)
          decreases f[x].slot
        {
          x := Parent(tree.nodes, x);
          if BlockIndex(tree.nodes[x].slot, x) == tree.justified {
            tree.SetJustified(BlockIndex(tree.nodes[hash].slot, hash));
            return Done;
          }
        }
        return Done;
      }
      if hash !in storage.headers {
        return HeaderNotFound;
      }
      FinalizedAncestor(tree.nodes, tree.root, storage.headers, anchor, hash, tree.best);
      var slot := storage.headers[hash].slot;
      if slot >= tree.justified.slot {
        return BlockNotFound;
      }
      if hash !in GetBlockHash(storage.index, slot) {
        return BlockOnDeadEnd;
      }
      return Done;
    }

    /**
     * How `onBlock` follows the checkpoints of a new state: the justified block first, then finality. The
     * justified block ends up cached, or gone from the database, so that a walk of the fork choice from
     * it, or from the finalized block in its absence, starts in the cached tree.
     */
    method UpdateCheckpoints(jus: Checkpoint, fin: Checkpoint) returns (r: TreeResult)
      requires Valid() && JustifiedOk(tree.nodes, tree.justified, storage.headers)
      requires jus.root in storage.headers && storage.headers[jus.root].slot == jus.slot
      requires fin.root in storage.headers && storage.headers[fin.root].slot == fin.slot
      requires IsAncestor(storage.headers, fin.root, jus.root)
      modifies tree, storage
      ensures Valid() && JustifiedOk(tree.nodes, tree.justified, storage.headers)
      ensures Followed(old(Now()), jus, fin, r, Now())
    {
      ghost var f, root, h, before := tree.nodes, tree.root, storage.headers, tree.justified;
      if jus.slot > tree.justified.slot {
        r := SetJustified(jus.root);
        if r != Done {
          return;
        }
      }
      assert tree.justified == NextJustified(f, before, jus);
      if fin.slot > tree.nodes[tree.root].slot {
        FinalizedIsCached(f, root, h, anchor, fin);
        NotAboveFinalized(f, root, h, anchor, before, jus, fin);
        JustifiedSurvives(f, root, h, anchor, tree.justified, fin.root);
        r := Finalize(fin.root);
      } else {
        r := Done;
      }
    }

    /** The same as an importer sees it: what is left of the database, and that a block below finality stays. */
    method FollowCheckpoints(b: Root, jus: Checkpoint, fin: Checkpoint) returns (r: TreeResult)
      requires Valid() && JustifiedOk(tree.nodes, tree.justified, storage.headers) && b in tree.nodes
      requires jus.root in storage.headers && storage.headers[jus.root].slot == jus.slot
      requires fin.root in storage.headers && storage.headers[fin.root].slot == fin.slot
      requires IsAncestor(storage.headers, fin.root, jus.root) && IsAncestor(storage.headers, fin.root, b)
      modifies tree, storage
      ensures Valid() && JustifiedOk(tree.nodes, tree.justified, storage.headers)
      ensures b in tree.nodes && b in storage.headers
      ensures storage.headers == old(storage.headers) - (old(storage.headers.Keys) - storage.headers.Keys)
      ensures tree.justified == old(tree.justified) || tree.justified == BlockIndex(jus.slot, jus.root)
      ensures Followed(old(Now()), jus, fin, r, Now())
    {
      ghost var f, h := tree.nodes, storage.headers;
      ghost var gone := if fin.root in f then Side(f, fin.root) else {};
      if fin.root in f {
        StoredBelowCached(f, tree.root, h, anchor, fin.root, b);
      }
      r := UpdateCheckpoints(jus, fin);
      DropAgain(h, gone);
      DropAgain(h, {});
    }

    /**
     * `getDescendingChainToBlock`: climbs the cached tree first and the database below it; the result
     * is the start of the plain ancestor chain, however the chain is split between the two.
     */
    method GetDescendingChain(to: Root, maximum: nat) returns (r: Option<seq<Root>>)
      requires Valid()
      ensures r == DescendingChain(storage.headers, to, maximum)
    {
      var chain: seq<Root>, hash := [], to;
      if to in tree.nodes {
        chain, hash := ClimbCached(tree.nodes, tree.root, storage.headers, anchor, to, maximum);
      } else if to in storage.headers {
        assert [] + AncestorChain(storage.headers, to) == AncestorChain(storage.headers, to);
      }
      r := ClimbStored(storage.headers, to, chain, hash, maximum);
    }

    /** Finalizes a block: its descendants stay cached, its ancestors stay stored, the rest is removed. */
    method Finalize(hash: Root) returns (r: TreeResult)
      requires Valid()
      modifies tree, storage
      ensures Valid() && tree.justified == old(tree.justified)
      ensures hash in old(tree.nodes) ==>
                && r == Done && tree.root == hash
                && tree.nodes == Subtree(old(tree.nodes), hash)
                && storage.headers == old(storage.headers) - Side(old(tree.nodes), hash)
                && (IsAncestor(old(tree.nodes), hash, old(tree.best)) ==> tree.best == old(tree.best))
      ensures hash !in old(tree.nodes) ==>
                && r == (if hash in old(storage.headers) then Done else HeaderNotFound)
                && tree.nodes == old(tree.nodes) && tree.root == old(tree.root) && tree.best == old(tree.best)
                && storage.headers == old(storage.headers) && storage.index == old(storage.index)
    {
      if hash == tree.root {
        RootKeepsAll(tree.nodes, tree.root);
        return Done;
      }
      if hash in tree.nodes {
        FinalizeNode(hash);
        return Done;
      }
      if hash !in storage.headers {
        return HeaderNotFound;
      }
      FinalizedAncestor(tree.nodes, tree.root, storage.headers, anchor, hash, tree.best);
      var slot := storage.headers[hash].slot;
      if slot >= tree.nodes[tree.root].slot {
        return BlockNotFound;
      }
      if hash !in GetBlockHash(storage.index, slot) {
        return BlockOnDeadEnd;
      }
      return Done;
    }

    method FinalizeNode(hash: Root)
      requires Valid() && hash in tree.nodes && hash != tree.root
      modifies tree, storage
      ensures Valid() && tree.justified == old(tree.justified) && tree.root == hash
      ensures tree.nodes == Subtree(old(tree.nodes), hash)
      ensures storage.headers == old(storage.headers) - Side(old(tree.nodes), hash)
      ensures IsAncestor(old(tree.nodes), hash, old(tree.best)) ==> tree.best == old(tree.best)
    {
      ghost var f, root, h, from := tree.nodes, tree.root, storage.headers, tree.best;
      var changes := tree.Finalize(hash);
      SubtreeOk(f, hash);
      RootIsAncestor(tree.nodes, hash, tree.best);
      AncestorWithin(tree.nodes, f, hash, tree.best);
      CutIsDroppable(f, root, h, anchor, hash, tree.best);
      FinalizeStored(f, root, h, anchor, hash);
      if changes.reorg.Some? {
        StoredReorg(f, root, h, anchor, from, tree.best, changes.reorg.value);
      }
      PruneHashes(f, hash, changes.prune);
      ReorgAndPruneStorage(changes, from);
    }

    /**
     * Removes a leaf. For the finalized block the source starts a new tree at its parent, which keeps the
     * invariant exactly when no other block was cached.
     */
    method RemoveLeaf(hash: Root) returns (r: TreeResult)
      requires Valid()
      modifies tree, storage
      ensures r == if hash == old(tree.root) then (if hash == anchor then HeaderNotFound else Done)
                   else if hash in old(tree.leaves) then Done else BlockIsNotLeaf
      ensures r != Done ==>
                && Valid() && tree.nodes == old(tree.nodes) && tree.best == old(tree.best)
                && storage.headers == old(storage.headers) && storage.index == old(storage.index)
      ensures r == Done ==> storage.headers == old(storage.headers) - {hash}
      ensures r == Done && hash != old(tree.root) ==>
                && Valid() && tree.root == old(tree.root) && tree.justified == old(tree.justified)
                && tree.nodes == old(tree.nodes) - {hash} && (old(tree.best) != hash ==> tree.best == old(tree.best))
      ensures r == Done && hash == old(tree.root) ==>
                && HasParent(old(storage.headers), hash) && tree.root == Parent(old(storage.headers), hash)
                && tree.nodes.Keys == {tree.root} && tree.justified.hash == tree.root
                && (Valid() <==> old(tree.nodes.Keys) == {hash})
    {
      if hash == tree.root {
        r := RemoveRoot();
        return;
      }
      if hash !in tree.leaves {
        return BlockIsNotLeaf;
      }
      RemoveLeafNode(hash);
      return Done;
    }

    /** A new tree of the block `parent`, without `finalized` in the database. */
    method RestartAt(parent: BlockIndex, finalized: BlockIndex)
      requires storage.LeavesInSync() && finalized.hash in storage.headers
      requires storage.headers[finalized.hash].slot == finalized.slot
      modifies tree, storage
      ensures tree.Valid() && tree.root == tree.best == parent.hash && tree.justified == parent
      ensures tree.nodes == map[parent.hash := Node(parent.slot, None)]
      ensures storage.LeavesInSync() && storage.storedLeaves == Some(SortedRoots(tree.leaves.Keys))
      ensures storage.headers == old(storage.headers) - {finalized.hash}
      ensures storage.index == Deassigned(old(storage.index), finalized)
    {
      tree.Restart(parent);
      storage.SetBlockTreeLeaves(tree.leaves.Keys);
      storage.Forget(finalized);
    }

    method RemoveRoot() returns (r: TreeResult)
      requires Valid()
      modifies tree, storage
      ensures r == if old(tree.root) == anchor then HeaderNotFound else Done
      ensures r != Done ==>
                && Valid() && tree.nodes == old(tree.nodes) && tree.best == old(tree.best)
                && storage.headers == old(storage.headers) && storage.index == old(storage.index)
      ensures r == Done ==>
                && HasParent(old(storage.headers), old(tree.root))
                && tree.root == Parent(old(storage.headers), old(tree.root)) == tree.justified.hash
                && tree.nodes.Keys == {tree.root} && storage.headers == old(storage.headers) - {old(tree.root)}
                && (Valid() <==> old(tree.nodes.Keys) == {old(tree.root)})
    {
      ghost var f, h, best := tree.nodes, storage.headers, tree.best;
      var finalized := tree.root;
      if !HasParent(storage.headers, finalized) {
        return HeaderNotFound;
      }
      var parent := Parent(storage.headers, finalized);
      RestartAt(BlockIndex(storage.headers[parent].slot, parent), BlockIndex(storage.headers[finalized].slot, finalized));
      if f.Keys == {finalized} {
        LoneRoot(f, finalized, h, anchor, best);
      } else {
        CrowdedRoot(f, finalized, h, anchor);
      }
      return Done;
    }

    method RemoveLeafNode(hash: Root)
      requires Valid() && hash in tree.leaves && hash != tree.root
      modifies tree, storage
      ensures Valid() && tree.root == old(tree.root) && tree.justified == old(tree.justified)
      ensures tree.nodes == old(tree.nodes) - {hash} && storage.headers == old(storage.headers) - {hash}
      ensures old(tree.best) != hash ==> tree.best == old(tree.best)
    {
      ghost var f, h, from := tree.nodes, storage.headers, tree.best;
      ghost var ch := tree.children;
      assert hash in f && ch[hash] == [];
      var changes := tree.RemoveLeaf(hash);
      RemoveStored(f, ch, tree.root, h, anchor, hash, tree.best);
      if changes.reorg.Some? {
        StoredReorg(f, tree.root, h, anchor, from, tree.best, changes.reorg.value);
      }
      PruneOne(changes.prune, hash);
      ReorgAndPruneStorage(changes, from);
    }
  }

  lemma DropAgain(h: Forest, gone: set<Root>)
    ensures h - (h.Keys - (h - gone).Keys) == h - gone
    ensures h - {} == h
  {
  }

  lemma FinalizedIsCached(f: Forest, root: Root, h: Forest, anchor: Root, fin: Checkpoint)
    requires TreeOk(f, root) && StoredOk(f, root, h, anchor) && fin.root in h && h[fin.root].slot == fin.slot
    requires fin.slot > f[root].slot
    ensures fin.root in f && f[fin.root].slot == fin.slot
  {
    if fin.root !in f { AncestorSlot(h, fin.root, root); }
  }

  lemma PruneOne(prune: seq<BlockIndex>, hash: Root)
    requires |prune| == 1 && prune[0].hash == hash
    ensures Hashes(prune) == {hash}
  {
    assert prune[0].hash in Hashes(prune);
  }

  /** A finalized block without cached descendants: what is left is the tree of its parent. */
  lemma LoneRoot(f: Forest, root: Root, h: Forest, anchor: Root, best: Root)
    requires TreeOk(f, root) && StoredOk(f, root, h, anchor) && f.Keys == {root} && HasParent(h, root) && best in f
    ensures var p := Parent(h, root);
            var index := Deassigned(CanonicalIndex(h, best), BlockIndex(h[root].slot, root));
            && StoredOk(map[p := Node(h[p].slot, None)], p, h - {root}, anchor)
            && index == CanonicalIndex(h - {root}, p)
  {
    var p := Parent(h, root);
    forall c ensures !IsChild(h, root, c) {
      if IsChild(h, root, c) { CachedBelowCached(f, root, h, anchor, c); }
    }
    RootIsAncestor(h, anchor, p);
    AncestorSlot(h, anchor, p);
    DropTree(h, anchor, {root});
    if IsAncestor(h, root, p) { AncestorSlot(h, root, p); }
    assert IsAncestor(h, p, p);
    forall b | b in h - {root} ensures IsAncestor(h - {root}, b, p) {
      DropAncestor(h, {root}, b, p);
    }
    RevertOne(h, root);
    DropIndex(h, {root}, p);
  }

  /** With a cached descendant of the finalized block left in the database, the invariant is gone. */
  lemma CrowdedRoot(f: Forest, root: Root, h: Forest, anchor: Root)
    requires TreeOk(f, root) && StoredOk(f, root, h, anchor) && f.Keys != {root} && HasParent(h, root)
    ensures var p := Parent(h, root); !StoredOk(map[p := Node(h[p].slot, None)], p, h - {root}, anchor)
  {
    var p := Parent(h, root);
    var c :| c in f && c != root;
    RootIsAncestor(f, root, c);
    AncestorSlot(f, root, c);
    var h' := h - {root};
    assert c in h' && h'[c].slot > h[p].slot;
    if WellFormed(h') && IsAncestor(h', c, p) { AncestorSlot(h', c, p); }
  }

  /** Every valid tree gives the fork choice a well-formed view. */
  lemma ViewFromTree(f: Forest, ch: Children, root: Root, best: Root, h: Forest, anchor: Root)
    requires TreeOk(f, root) && ChildrenOk(f, ch) && StoredOk(f, root, h, anchor) && best in f
    ensures ViewOk(View(h, ch, CanonicalIndex(h, best), root))
  {
    ViewKids(f, ch, root, best, h, anchor);
    forall b, c | b in ch && IsChild(h, b, c) ensures c in ch {
      ViewChild(f, ch, root, h, anchor, b, c);
    }
    forall b | b in ch ensures IsAncestor(h, root, b) {
      RootIsAncestor(f, root, b);
      AncestorWithin(f, h, root, b);
    }
  }

  lemma ViewKids(f: Forest, ch: Children, root: Root, best: Root, h: Forest, anchor: Root)
    requires TreeOk(f, root) && ChildrenOk(f, ch) && StoredOk(f, root, h, anchor) && best in f
    ensures KidsOk(View(h, ch, CanonicalIndex(h, best), root))
  {
    var v := View(h, ch, CanonicalIndex(h, best), root);
    forall b, c | b in h ensures c in Kids(v, b) <==> Linked(v, b, c) { ViewKid(f, ch, root, best, v, anchor, b, c); }
  }

  lemma ViewKid(f: Forest, ch: Children, root: Root, best: Root, v: View, anchor: Root, b: Root, c: Root)
    requires TreeOk(f, root) && ChildrenOk(f, ch) && StoredOk(f, root, v.headers, anchor) && best in f
    requires v.children == ch && v.index == CanonicalIndex(v.headers, best) && b in v.headers
    ensures c in Kids(v, b) <==> Linked(v, b, c)
  {
    if b in ch {
      ViewChild(f, ch, root, v.headers, anchor, b, c);
      LinkedCached(v, b, c);
    } else {
      ViewStored(f, root, v.headers, anchor, best, b, c);
      StoredKid(v, b, best, c);
    }
  }

  lemma ViewChild(f: Forest, ch: Children, root: Root, h: Forest, anchor: Root, p: Root, c: Root)
    requires TreeOk(f, root) && ChildrenOk(f, ch) && StoredOk(f, root, h, anchor) && p in ch
    ensures c in ch[p] <==> IsChild(h, p, c)
    ensures IsChild(h, p, c) ==> c in ch
  {
    assert c in ch[p] <==> IsChild(f, p, c);
    if IsChild(h, p, c) { CachedBelowCached(f, root, h, anchor, c); }
  }

  /** A block that is only stored, and every child of it, is on the chain of the best block. */
  lemma ViewStored(f: Forest, root: Root, h: Forest, anchor: Root, best: Root, b: Root, c: Root)
    requires TreeOk(f, root) && StoredOk(f, root, h, anchor) && best in f && b in h && b !in f
    ensures best in h && IsAncestor(h, b, best)
    ensures IsChild(h, b, c) ==> IsAncestor(h, c, best)
  {
    StoredAbove(f, root, h, anchor, b, best);
    if IsChild(h, b, c) {
      ChildOfStored(f, root, h, anchor, b, c);
      StoredRootAbove(f, root, h, anchor, c, best);
    }
  }

  lemma StoredRootAbove(f: Forest, root: Root, h: Forest, anchor: Root, c: Root, best: Root)
    requires TreeOk(f, root) && StoredOk(f, root, h, anchor) && best in f && IsAncestor(h, c, root)
    ensures IsAncestor(h, c, best)
  {
    RootIsAncestor(f, root, best);
    AncestorWithin(f, h, root, best);
    AncestorTrans(h, c, root, best);
  }

  lemma ChildOfStored(f: Forest, root: Root, h: Forest, anchor: Root, b: Root, c: Root)
    requires TreeOk(f, root) && StoredOk(f, root, h, anchor) && b !in f && IsChild(h, b, c)
    ensures IsAncestor(h, c, root)
  {
    if c in f {
      assert c == root || HasParent(f, c);
      assert IsAncestor(h, root, root);
    }
  }

  lemma RootKeepsAll(f: Forest, root: Root)
    requires TreeOk(f, root)
    ensures Subtree(f, root) == f && Side(f, root) == {}
  {
    forall b | b in f ensures IsAncestor(f, root, b) { RootIsAncestor(f, root, b); }
  }

  /** A stored block that is not cached is below the finalized one and on the index. */
  lemma FinalizedAncestor(f: Forest, root: Root, h: Forest, anchor: Root, b: Root, best: Root)
    requires TreeOk(f, root) && StoredOk(f, root, h, anchor) && b in h && b !in f && best in f
    ensures h[b].slot < f[root].slot
    ensures GetBlockHash(CanonicalIndex(h, best), h[b].slot) == [b]
  {
    AncestorSlot(h, b, root);
    RootIsAncestor(f, root, best);
    AncestorWithin(f, h, root, best);
    AncestorTrans(h, b, root, best);
    CanonicalMeaning(h, best, h[b].slot, b);
  }

  lemma PruneHashes(f: Forest, r: Root, prune: seq<BlockIndex>)
    requires WellFormed(f) && IsPruneList(f, r, prune)
    ensures Hashes(prune) == Side(f, r)
  {
  }
}
