/**
 * The fork choice on the block tree: from a justified block that is cached, or no longer stored, the head
 * is a leaf of the tree and the safe target the unique deepest block with two-thirds support.
 */
module TreeForkChoice {
  import opened Types
  import opened Forests
  import opened CachedTrees
  import opened BlockTrees
  import opened TreeViews
  import opened LmdGhost
  import opened SafeTargets
  import opened ForkChoiceStores

  /** The head is stored under its slot, or no longer stored. */
  ghost predicate HeadOk(h: Forest, head: Checkpoint) {
    head.root in h ==> At(h, head)
  }

  /**
   * What `updateHead` does with the answers of a tree: nothing when the old head is not stored, and else the
   * head is the walk over the votes, a leaf below the anchor, under its slot.
   */
  ghost predicate HeadMoved(v: View, justified: Root, votes: Votes, before: Checkpoint, ok: bool, after: Checkpoint)
    requires ViewOk(v)
  {
    && (ok <==> before.root in v.headers)
    && if ok
       then
         && after.root == GhostHead(v, justified, votes, 0) && IsLeaf(v, after.root) && At(v.headers, after)
         && IsAncestor(v.headers, Anchor(v, justified), after.root)
       else after == before
  }

  /** `updateHead` on the tree. */
  method RefreshHead(blockTree: BlockTree, store: ForkChoiceStore) returns (ok: bool)
    requires blockTree.Valid() && HeadOk(blockTree.storage.headers, store.head)
    requires JustifiedOk(blockTree.tree.nodes, blockTree.tree.justified, blockTree.storage.headers)
    modifies store`head
    ensures blockTree.Valid() && blockTree.Now() == old(blockTree.Now()) && store.Votes() == old(store.Votes())
    ensures HeadMoved(blockTree.GetView(), blockTree.tree.justified.hash, Heads(store.known), old(store.head), ok,
                      store.head)
  {
    var v := blockTree.GetView();
    HeadIsLeaf(v, blockTree.tree.justified.hash, Heads(store.known));
    ok := store.UpdateHead(v, blockTree.tree.justified.hash);
  }

  /**
   * What `updateSafeTarget` does with the answers of a tree: nothing without the number of validators, which
   * the state of the head has, and else the safe target is the unique deepest block with two-thirds support below
   * a cached anchor, under its slot.
   */
  ghost predicate SafeTargetMoved(v: View, justified: Root, votes: Votes, count: Option<nat>, before: Checkpoint, ok: bool,
                                  after: Checkpoint)
    requires ViewOk(v)
  {
    var anchor := Anchor(v, justified);
    && (ok <==> count.Some?)
    && if ok
       then
         && anchor in v.children && after.root == SafeTarget(v, votes, count.value, anchor) && At(v.headers, after)
         && IsDeepestSupported(v, votes, count.value, anchor)
       else after == before
  }

  /** `updateSafeTarget` on the tree. */
  method RefreshSafeTarget(blockTree: BlockTree, store: ForkChoiceStore, count: Option<nat>) returns (ok: bool)
    requires blockTree.Valid() && (count.Some? ==> 0 < count.value && |store.pending| <= count.value)
    requires JustifiedOk(blockTree.tree.nodes, blockTree.tree.justified, blockTree.storage.headers)
    modifies store`safeTarget
    ensures blockTree.Valid() && blockTree.Now() == old(blockTree.Now())
    ensures store.head == old(store.head) && store.Votes() == old(store.Votes())
    ensures SafeTargetMoved(blockTree.GetView(), blockTree.tree.justified.hash, Heads(store.pending), count,
                            old(store.safeTarget), ok, store.safeTarget)
  {
    var v := blockTree.GetView();
    ok := store.UpdateSafeTarget(v, blockTree.tree.justified.hash, count);
    if ok {
      assert Heads(store.pending).Keys == store.pending.Keys;
      SafeTargetIsDeepestSupported(v, Heads(store.pending), count.value, Anchor(v, blockTree.tree.justified.hash));
    }
  }

  // ----- two inputs

  /** Block 1 at slot 0, and block 2 on top of it at slot 2. */
  method Line() returns (blockTree: BlockTree)
    ensures blockTree.Valid() && fresh(blockTree.tree) && fresh(blockTree.storage)
    ensures blockTree.tree.nodes == blockTree.storage.headers == map[1 := Node(0, None), 2 := Node(2, Some(1))]
    ensures blockTree.tree.root == 1 && blockTree.tree.justified == BlockIndex(0, 1)
  {
    blockTree := new BlockTree(BlockIndex(0, 1));
    var added := blockTree.AddBlock(2, 2, 1);
  }

  /** Block 1 at slot 0, and blocks 2 and 3 on top of it at slots 1 and 2. */
  method Fork() returns (blockTree: BlockTree)
    ensures blockTree.Valid() && fresh(blockTree.tree) && fresh(blockTree.storage)
    ensures blockTree.tree.nodes == blockTree.storage.headers
         == map[1 := Node(0, None), 2 := Node(1, Some(1)), 3 := Node(2, Some(1))]
    ensures blockTree.tree.root == 1 && blockTree.tree.justified == BlockIndex(0, 1)
  {
    blockTree := new BlockTree(BlockIndex(0, 1));
    var added := blockTree.AddBlock(2, 1, 1);
    added := blockTree.AddBlock(3, 2, 1);
  }

  lemma LineFacts(f: Forest)
    requires f == map[1 := Node(0, None), 2 := Node(2, Some(1))]
    ensures WellFormed(f) && Side(f, 2) == {} && Subtree(f, 2) == map[2 := Node(2, None)] && f - Side(f, 2) == f
    ensures 2 in f && HasParent(f, 2) && Parent(f, 2) == 1 && IsAncestor(f, 1, 2) && IsAncestor(f, 2, 2)
  {
    assert HasParent(f, 2) && Parent(f, 2) == 1;
    assert IsAncestor(f, 1, 1) && IsAncestor(f, 1, 2) && !IsAncestor(f, 2, 1);
  }

  /** Block 2 finalized, without being justified first. */
  method FinalizedLine() returns (blockTree: BlockTree)
    ensures blockTree.Valid() && blockTree.tree.root == 2 && blockTree.tree.justified == BlockIndex(0, 1)
    ensures blockTree.storage.headers == map[1 := Node(0, None), 2 := Node(2, Some(1))]
    ensures blockTree.tree.nodes == map[2 := Node(2, None)]
  {
    blockTree := Line();
    ghost var f := blockTree.tree.nodes;
    LineFacts(f);
    var done := blockTree.Finalize(2);
    assert blockTree.storage.headers == f - Side(f, 2) && blockTree.tree.nodes == Subtree(f, 2);
  }

  lemma LineStops(v: View)
    requires ViewOk(v) && v.headers == map[1 := Node(0, None), 2 := Node(2, Some(1))] && v.finalized == 2
    ensures !IsLeaf(v, GhostHead(v, 1, map[], 0))
  {
    LineFacts(v.headers);
    WalkEndsAtLeaf(v, map[], 0, 1);
  }

  /**
   * The order of `onBlock` matters: finalizing block 2, at slot 2, without justifying it first leaves the
   * justified block 1 stored only, and the walk from it does not reach a leaf.
   */
  method StoredJustifiedExample() returns (blockTree: BlockTree)
    ensures blockTree.Valid() && blockTree.tree.justified.hash == 1
    ensures 1 in blockTree.storage.headers && 1 !in blockTree.tree.nodes
    ensures !IsLeaf(blockTree.GetView(), GhostHead(blockTree.GetView(), 1, map[], 0))
  {
    blockTree := FinalizedLine();
    LineStops(blockTree.GetView());
  }

  lemma ForkFacts(f: Forest)
    requires f == map[1 := Node(0, None), 2 := Node(1, Some(1)), 3 := Node(2, Some(1))]
    ensures WellFormed(f) && JustifiedAbove(f, BlockIndex(0, 1), 3)
    ensures 2 in Side(f, 3) && 3 in Subtree(f, 3) && Subtree(f, 3)[3].slot == 2
  {
    assert HasParent(f, 2) && HasParent(f, 3);
    assert IsAncestor(f, 1, 1) && !IsAncestor(f, 2, 1) && !IsAncestor(f, 3, 1) && IsAncestor(f, 3, 3);
  }

  /** Block 3 justified and then finalized. */
  method FinalizedFork() returns (blockTree: BlockTree)
    ensures blockTree.Valid() && fresh(blockTree.tree) && fresh(blockTree.storage)
    ensures 2 !in blockTree.storage.headers
    ensures JustifiedOk(blockTree.tree.nodes, blockTree.tree.justified, blockTree.storage.headers)
  {
    blockTree := Fork();
    ForkFacts(blockTree.tree.nodes);
    var done := blockTree.SetJustified(3);
    done := blockTree.Finalize(3);
  }

  /** A head that finality leaves on another fork is pruned, and `updateHead` fails. */
  method PrunedHeadExample() returns (ok: bool)
    ensures !ok
  {
    var blockTree := FinalizedFork();
    var store := new ForkChoiceStore(Checkpoint(2, 1));
    ok := RefreshHead(blockTree, store);
  }
}
