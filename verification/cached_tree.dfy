/**
 * The in-memory tree of non-finalized blocks. A node of the source is a shared object; here it is
 * named by its hash, its slot and parent are in `nodes` and its child list is in `children`.
 */
module CachedTrees {
  import opened Types
  import opened Forests

  type Children = map<Root, seq<Root>>

  datatype ReorgAndPrune = ReorgAndPrune(reorg: Option<Reorg>, prune: seq<BlockIndex>)

  ghost predicate Distinct<T>(s: seq<T>) {
    forall i, j | 0 <= i < j < |s| :: s[i] != s[j]
  }

  ghost predicate IsChild(f: Forest, p: Root, c: Root) {
    HasParent(f, c) && Parent(f, c) == p
  }

  /** The child lists mirror the parent links. */
  ghost predicate ChildrenOk(f: Forest, ch: Children) {
    && ch.Keys == f.Keys
    && (forall p | p in ch :: Distinct(ch[p]))
    && (forall p, c | p in ch :: c in ch[p] <==> IsChild(f, p, c))
  }

  /** One tree: only the root has no parent. */
  ghost predicate TreeOk(f: Forest, root: Root) {
    && WellFormed(f) && root in f && f[root].parent == None
    && forall b | b in f && b != root :: HasParent(f, b)
  }

  ghost predicate LeavesOk(f: Forest, ch: Children, leaves: map<Root, nat>)
    requires ch.Keys == f.Keys
  {
    leaves == map b | b in f && ch[b] == [] :: f[b].slot
  }

  ghost predicate IsDeepest(f: Forest, best: Root) {
    best in f && forall b | b in f :: f[b].slot <= f[best].slot
  }

  ghost predicate ShapeOk(f: Forest, ch: Children, leaves: map<Root, nat>, root: Root) {
    TreeOk(f, root) && ChildrenOk(f, ch) && LeavesOk(f, ch, leaves)
  }

  /** The invariant of the cached tree. */
  ghost predicate CacheOk(f: Forest, ch: Children, leaves: map<Root, nat>, root: Root, best: Root) {
    ShapeOk(f, ch, leaves, root) && IsDeepest(f, best)
  }

  lemma {:induction false} RootIsAncestor(f: Forest, root: Root, b: Root)
    requires TreeOk(f, root) && b in f
    ensures IsAncestor(f, root, b)
    decreases f[b].slot
  {
    if b != root {
      RootIsAncestor(f, root, Parent(f, b));
    }
  }

  // ----- deepest blocks are leaves

  lemma DeepestExists(f: Forest, s: set<Root>) returns (m: Root)
    requires s != {} && s <= f.Keys
    ensures m in s && forall b | b in s :: f[b].slot <= f[m].slot
  {
    m :| m in s;
    if s != {m} {
      assert s == {m} + (s - {m});
      var m' := DeepestExists(f, s - {m});
      if f[m].slot < f[m'].slot {
        m := m';
      }
    }
  }

  /** A block at least as late as the root and every leaf is as late as every block. */
  lemma LatestLeafIsDeepest(f: Forest, ch: Children, leaves: map<Root, nat>, best: Root)
    requires WellFormed(f) && ChildrenOk(f, ch) && LeavesOk(f, ch, leaves) && best in f
    requires forall l | l in leaves :: f[l].slot <= f[best].slot
    ensures IsDeepest(f, best)
  {
    assert forall b | b in ch && ch[b] != [] :: ch[b][0] in ch[b];
    var m := DeepestExists(f, f.Keys);
    assert forall c :: !IsChild(f, m, c);
  }

  // ----- the subtree kept by finalization

  /** The blocks that `r` cuts off when it is finalized: neither its ancestors nor its descendants. */
  ghost function Side(f: Forest, r: Root): set<Root>
    requires WellFormed(f)
  {
    set b | b in f && !IsAncestor(f, b, r) && !IsAncestor(f, r, b)
  }

  /** The descendants-or-self of `r`, with `r` detached from its parent. */
  ghost function Subtree(f: Forest, r: Root): Forest
    requires WellFormed(f)
  {
    map b | b in f && IsAncestor(f, r, b) :: if b == r then Node(f[r].slot, None) else f[b]
  }

  lemma SubtreeOk(f: Forest, r: Root)
    requires WellFormed(f) && r in f
    ensures TreeOk(Subtree(f, r), r) && Within(Subtree(f, r), f)
  {
    var g := Subtree(f, r);
    forall b | b in g && b != r ensures HasParent(g, b) && g[b].parent == f[b].parent {
      assert IsAncestor(f, r, Parent(f, b));
    }
  }

  lemma {:induction false} SubtreeAncestor(f: Forest, r: Root, a: Root, b: Root)
    requires WellFormed(f) && r in f && a in Subtree(f, r) && b in Subtree(f, r)
    ensures WellFormed(Subtree(f, r))
    ensures IsAncestor(Subtree(f, r), a, b) <==> IsAncestor(f, a, b)
    decreases f[b].slot
  {
    var g := Subtree(f, r);
    SubtreeOk(f, r);
    if a != b {
      if b == r {
        if IsAncestor(f, a, b) {
          AncestorSlot(f, a, b);
          AncestorSlot(f, r, a);
        }
      } else {
        assert IsAncestor(f, r, Parent(f, b));
        SubtreeAncestor(f, r, a, Parent(f, b));
      }
    }
  }

  lemma {:induction false} SubtreePath(f: Forest, r: Root, b: Root)
    requires WellFormed(f) && b in Subtree(f, r)
    ensures WellFormed(Subtree(f, r)) && IsAncestor(Subtree(f, r), r, b) && IsAncestor(f, r, b)
    ensures UpPath(Subtree(f, r), r, b) == UpPath(f, r, b)
    decreases f[b].slot
  {
    AncestorSlot(f, r, b);
    SubtreeOk(f, r);
    if b != r {
      SubtreePath(f, r, Parent(f, b));
    }
  }

  lemma SubtreeChild(f: Forest, r: Root, p: Root, c: Root)
    requires WellFormed(f) && IsAncestor(f, r, p)
    ensures IsChild(Subtree(f, r), p, c) <==> IsChild(f, p, c)
  {
    AncestorSlot(f, r, p);
    SubtreeOk(f, r);
    if IsChild(f, p, c) {
      assert IsAncestor(f, r, c);
    }
  }

  lemma SubtreeChildren(f: Forest, ch: Children, r: Root)
    requires WellFormed(f) && ChildrenOk(f, ch) && r in f
    ensures ChildrenOk(Subtree(f, r), map b | b in ch && IsAncestor(f, r, b) :: ch[b])
  {
    var g := Subtree(f, r);
    var ch' := map b | b in ch && IsAncestor(f, r, b) :: ch[b];
    SubtreeOk(f, r);
    forall p, c | p in ch' ensures c in ch'[p] <==> IsChild(g, p, c) {
      assert c in ch[p] <==> IsChild(f, p, c);
      SubtreeChild(f, r, p, c);
    }
  }

  /** Siblings of a block on the path to `r` are not on that path. */
  lemma SiblingOffPath(f: Forest, r: Root, p: Root, c: Root, x: Root)
    requires WellFormed(f) && IsChild(f, p, c) && IsChild(f, p, x) && x != c && IsAncestor(f, c, r)
    ensures !IsAncestor(f, x, r) && !IsAncestor(f, r, x)
  {
    if IsAncestor(f, x, r) {
      AncestorsComparable(f, x, c, r);
      if IsAncestor(f, x, c) { AncestorSlot(f, x, p); } else { AncestorSlot(f, c, p); }
      assert false;
    }
    if IsAncestor(f, r, x) {
      AncestorTrans(f, c, r, x);
      AncestorSlot(f, c, p);
      assert false;
    }
  }

  /** Removes the first occurrence of `x`. */
  function Without(s: seq<Root>, x: Root): seq<Root> {
    if s == [] then [] else if s[0] == x then s[1..] else [s[0]] + Without(s[1..], x)
  }

  lemma {:induction false} WithoutRemovesOne(s: seq<Root>, x: Root)
    requires Distinct(s)
    ensures Distinct(Without(s, x)) && forall y :: y in Without(s, x) <==> y in s && y != x
  {
    if s != [] {
      assert s == [s[0]] + s[1..];
      if s[0] == x {
        assert forall y | y in s[1..] :: y != x;
      } else {
        WithoutRemovesOne(s[1..], x);
        var r := Without(s[1..], x);
        assert forall i | 0 <= i < |r| :: r[i] in r;
        assert s[0] !in s[1..];
      }
    }
  }

  ghost function ToSet(s: seq<Root>): set<Root> {
    set x | x in s
  }

  /** The proper ancestors of `r` at or below `top`: what the walk up from `r` has erased so far. */
  ghost function Erased(f: Forest, top: Root, r: Root): set<Root>
    requires WellFormed(f)
  {
    set b | b in f && b != r && IsAncestor(f, top, b) && IsAncestor(f, b, r)
  }

  /** The blocks hanging off the erased part of the path. */
  ghost predicate HangsOff(f: Forest, erased: set<Root>, r: Root, x: Root)
    requires WellFormed(f)
  {
    HasParent(f, x) && Parent(f, x) in erased && !IsAncestor(f, x, r)
  }

  ghost predicate QueueOk(f: Forest, top: Root, r: Root, queue: seq<Root>)
    requires WellFormed(f)
  {
    Distinct(queue) && forall x :: x in queue <==> HangsOff(f, Erased(f, top, r), r, x)
  }

  /** Everything erased: the proper ancestors of `r` and the blocks taken off the queue. */
  ghost function Gone(f: Forest, root: Root, r: Root, pruned: seq<Root>): set<Root>
    requires WellFormed(f)
  {
    Erased(f, root, r) + ToSet(pruned)
  }

  /** A breadth-first list of cut-off blocks: once each, parents first, and closed as far as `done` goes. */
  ghost predicate CutList(f: Forest, r: Root, s: seq<Root>, done: nat)
    requires WellFormed(f) && done <= |s|
  {
    && Distinct(s)
    && (forall x | x in s :: x in Side(f, r))
    && (forall i, j | 0 <= i < |s| && 0 <= j < |s| && IsChild(f, s[j], s[i]) :: j < i)
    && (forall x | x in Side(f, r) && HasParent(f, x) ::
          x in s <==> IsAncestor(f, Parent(f, x), r) || Parent(f, x) in s[..done])
  }

  /** The prune list of the source: cut-off blocks, each once, children before parents. */
  ghost predicate IsPruneList(f: Forest, r: Root, prune: seq<BlockIndex>)
    requires WellFormed(f)
  {
    && (forall i | 0 <= i < |prune| :: prune[i].hash in f && prune[i].slot == f[prune[i].hash].slot)
    && (forall i, j | 0 <= i < j < |prune| :: prune[i].hash != prune[j].hash)
    && (forall x :: x in Side(f, r) <==> exists i :: 0 <= i < |prune| && prune[i].hash == x)
    && (forall i, j | 0 <= i < |prune| && 0 <= j < |prune| && IsChild(f, prune[j].hash, prune[i].hash) :: i < j)
  }

  class CachedTree {
    var root: Root
    var justified: BlockIndex
    var best: Root
    var nodes: Forest
    var children: Children
    var leaves: map<Root, nat>

    ghost predicate Valid()
      reads this
    {
      CacheOk(nodes, children, leaves, root, best)
    }

    constructor (index: BlockIndex)
      ensures Valid()
      ensures root == best == index.hash && justified == index
      ensures nodes == map[index.hash := Node(index.slot, None)] && leaves == map[index.hash := index.slot]
    {
      root, justified, best := index.hash, index, index.hash;
      nodes := map[index.hash := Node(index.slot, None)];
      children := map[index.hash := []];
      leaves := map[index.hash := index.slot];
    }

    /** A new tree of one block in place of this one. */
    method Restart(index: BlockIndex)
      modifies this
      ensures Valid()
      ensures root == best == index.hash && justified == index
      ensures nodes == map[index.hash := Node(index.slot, None)] && leaves == map[index.hash := index.slot]
    {
      root, justified, best := index.hash, index, index.hash;
      nodes := map[index.hash := Node(index.slot, None)];
      children := map[index.hash := []];
      leaves := map[index.hash := index.slot];
    }

    /** Adds a block under a known parent; a known block is ignored. */
    method Add(hash: Root, slot: nat, parent: Root) returns (r: Option<Reorg>)
      requires Valid() && parent in nodes && nodes[parent].slot < slot
      modifies this
      ensures Valid() && root == old(root) && justified == old(justified)
      ensures nodes == if hash in old(nodes) then old(nodes) else old(nodes)[hash := Node(slot, Some(parent))]
      ensures best == if hash !in old(nodes) && slot > old(nodes[best].slot) then hash else old(best)
      ensures r.Some? <==> best != old(best)
      ensures r.Some? ==> IsReorg(nodes, old(best), best, r.value)
    {
      if hash in nodes {
        return None;
      }
      ghost var f, ch := nodes, children;
      children := children[parent := children[parent] + [hash]][hash := []];
      nodes := nodes[hash := Node(slot, Some(parent))];
      leaves := (leaves - {parent})[hash := slot];
      AddKeepsOk(f, ch, old(leaves), root, best, hash, slot, parent);
      if slot > nodes[best].slot {
        var oldBest := best;
        best := hash;
        RootIsAncestor(nodes, root, oldBest);
        RootIsAncestor(nodes, root, best);
        var reorg := ComputeReorg(nodes, oldBest, best, root);
        return Some(reorg);
      }
      return None;
    }

    /** `forceRefreshBest`: leaves grouped by slot, then taken from the latest slot down. */
    method RefreshBest()
      requires root in nodes && forall l | l in leaves :: l in nodes && leaves[l] == nodes[l].slot
      modifies this`best
      ensures best == root || (best in leaves && nodes[best].slot > nodes[root].slot)
      ensures forall l | l in leaves :: leaves[l] <= nodes[best].slot
    {
      var candidates: map<nat, Root> := map[];
      var keys := leaves.Keys;
      while keys != {}
        invariant keys <= leaves.Keys
        invariant forall s | s in candidates :: candidates[s] in leaves && leaves[candidates[s]] == s
        invariant forall l | l in leaves && l !in keys :: leaves[l] in candidates
        decreases keys
      {
        var key :| key in keys;
        var slot := nodes[key].slot;
        if slot !in candidates {
          candidates := candidates[slot := key];
        }
        keys := keys - {key};
      }
      best := root;
      while candidates != map[]
        invariant forall s | s in candidates :: candidates[s] in leaves && leaves[candidates[s]] == s
        invariant best == root || (best in leaves && nodes[best].slot > nodes[root].slot)
        invariant forall l | l in leaves :: leaves[l] in candidates || leaves[l] <= nodes[best].slot
        decreases candidates.Keys
      {
        LatestExists(candidates.Keys);
        var slot :| slot in candidates && forall s | s in candidates :: s <= slot;
        var node := candidates[slot];
        candidates := candidates - {slot};
        if nodes[best].slot < nodes[node].slot {
          best := node;
        }
      }
    }

    /** The first loop of `finalize`: erases the ancestors of `r`, queues their other children. */
    method EraseAncestors(r: Root) returns (queue: seq<Root>)
      requires TreeOk(nodes, root) && ChildrenOk(nodes, children) && r in nodes && r != root
      modifies this`nodes, this`children
      ensures nodes == old(nodes) - Erased(old(nodes), root, r)
      ensures children == old(children) - Erased(old(nodes), root, r)
      ensures CutList(old(nodes), r, queue, 0)
    {
      ghost var f, ch := nodes, children;
      queue := [];
      var top := r;
      var up := nodes[r].parent;
      QueueStart(f, r);
      while up.Some?
        invariant top in f && IsAncestor(f, top, r) && up == f[top].parent
        invariant nodes == f - Erased(f, top, r) && children == ch - Erased(f, top, r)
        invariant QueueOk(f, top, r, queue)
        decreases f[top].slot
      {
        var parent := up.value;
        assert top != root && HasParent(f, top);
        ErasedStep(f, top, r);
        HangsOffStep(f, ch, top, r, queue);
        AncestorTrans(f, parent, top, r);
        DropOne(f, Erased(f, top, r), parent);
        DropOne(ch, Erased(f, top, r), parent);
        queue := queue + Without(children[parent], top);
        up := nodes[parent].parent;
        children := children - {parent};
        nodes := nodes - {parent};
        top := parent;
      }
      assert top == root;
      QueueStartsCut(f, root, r, queue);
    }

    /** Erases one block, and gives its children. */
    method EraseOne(block: Root) returns (kids: seq<Root>)
      requires block in children
      modifies this`nodes, this`children, this`leaves
      ensures kids == old(children[block])
      ensures nodes == old(nodes) - {block} && children == old(children) - {block}
      ensures leaves == if kids == [] then old(leaves) - {block} else old(leaves)
    {
      kids := children[block];
      if kids == [] {
        leaves := leaves - {block};
      }
      children := children - {block};
      nodes := nodes - {block};
    }

    /** One round of the loop below: the first queued block goes, its children join the queue. */
    method EraseNext(ghost f: Forest, ghost ch: Children, ghost lv: map<Root, nat>, r: Root, done: seq<Root>,
                     waiting: seq<Root>) returns (pruned: seq<Root>, queue: seq<Root>)
      requires WellFormed(f) && ChildrenOk(f, ch) && LeavesOk(f, ch, lv) && r in f
      requires waiting != [] && CutList(f, r, done + waiting, |done|)
      requires nodes == f - Gone(f, root, r, done) && children == ch - Gone(f, root, r, done)
      requires leaves == lv - ToSet(done)
      modifies this`nodes, this`children, this`leaves
      ensures CutList(f, r, pruned + queue, |pruned|)
      ensures nodes == f - Gone(f, root, r, pruned) && children == ch - Gone(f, root, r, pruned)
      ensures leaves == lv - ToSet(pruned)
      ensures Side(f, r) - ToSet(pruned) < Side(f, r) - ToSet(done)
    {
      var block := waiting[0];
      CutNext(f, ch, lv, root, r, done, waiting);
      var kids := EraseOne(block);
      pruned := done + [block];
      queue := waiting[1..] + kids;
    }

    /** The second loop of `finalize`: erases the queued blocks and everything below them. */
    method EraseCut(ghost f: Forest, ghost ch: Children, r: Root, queued: seq<Root>) returns (pruned: seq<Root>)
      requires TreeOk(f, root) && ChildrenOk(f, ch) && LeavesOk(f, ch, leaves)
      requires r in f && CutList(f, r, queued, 0)
      requires nodes == f - Erased(f, root, r) && children == ch - Erased(f, root, r)
      modifies this`nodes, this`children, this`leaves
      ensures CutList(f, r, pruned, |pruned|)
      ensures nodes == f - Gone(f, root, r, pruned) && children == ch - Gone(f, root, r, pruned)
      ensures leaves == old(leaves) - ToSet(pruned)
    {
      pruned := [];
      var queue := queued;
      assert pruned + queue == queued;
      assert Gone(f, root, r, []) == Erased(f, root, r);
      while queue != []
        invariant CutList(f, r, pruned + queue, |pruned|)
        invariant nodes == f - Gone(f, root, r, pruned) && children == ch - Gone(f, root, r, pruned)
        invariant leaves == old(leaves) - ToSet(pruned)
        decreases Side(f, r) - ToSet(pruned)
      {
        pruned, queue := EraseNext(f, ch, old(leaves), r, pruned, queue);
      }
      assert pruned + queue == pruned;
    }

    /**
     * Makes `r` the root: keeps exactly its descendants, reports every cut-off block, and, when the
     * best block is cut off, the reorganisation to the new best block.
     */
    method Finalize(r: Root) returns (changes: ReorgAndPrune)
      requires Valid() && r in nodes
      modifies this
      ensures Valid() && root == r && justified == old(justified)
      ensures r == old(root) ==> nodes == old(nodes) && best == old(best) && changes == ReorgAndPrune(None, [])
      ensures r != old(root) ==> nodes == Subtree(old(nodes), r) && IsPruneList(old(nodes), r, changes.prune)
      ensures IsAncestor(old(nodes), r, old(best)) ==> best == old(best)
      ensures changes.reorg.None? <==> IsAncestor(old(nodes), r, old(best))
      ensures changes.reorg.Some? ==> IsReorg(old(nodes), old(best), best, changes.reorg.value)
    {
      RootIsAncestor(nodes, root, r);
      RootIsAncestor(nodes, root, best);
      if r == root {
        return ReorgAndPrune(None, []);
      }
      var keepsBest := CanDescend(nodes, best, r, root);
      if keepsBest {
        var pruned := CutDownTo(r);
        SubtreeDeepest(old(nodes), r, best);
        return ReorgAndPrune(None, pruned);
      }
      var away := ComputeReorg(nodes, best, r, root);
      var pruned := CutDownTo(r);
      var reorg := MoveBest(old(nodes), away);
      return ReorgAndPrune(Some(reorg), pruned);
    }

    /** Both loops of `finalize` and the change of root. */
    method CutDownTo(r: Root) returns (prune: seq<BlockIndex>)
      requires ShapeOk(nodes, children, leaves, root) && r in nodes && r != root
      modifies this`nodes, this`children, this`leaves, this`root
      ensures root == r && nodes == Subtree(old(nodes), r)
      ensures ShapeOk(nodes, children, leaves, root)
      ensures IsPruneList(old(nodes), r, prune)
    {
      ghost var f, ch, lv := nodes, children, leaves;
      var slots := nodes;
      var queue := EraseAncestors(r);
      var pruned := EraseCut(f, ch, r, queue);
      PruneListFromCut(f, root, r, pruned);
      KeptIsSubtree(f, ch, lv, root, r, pruned);
      prune := Reversed(Indexes(slots, pruned));
      root := r;
      nodes := nodes[r := nodes[r].(parent := None)];
    }

    /** Chooses the best block again after the old one was cut off, and completes the reorganisation. */
    method MoveBest(ghost f: Forest, away: Reorg) returns (reorg: Reorg)
      requires WellFormed(f) && root in f && nodes == Subtree(f, root) && ShapeOk(nodes, children, leaves, root)
      requires best in f && !IsAncestor(f, root, best) && IsReorg(f, best, root, away)
      modifies this`best
      ensures IsDeepest(nodes, best)
      ensures IsReorg(f, old(best), best, reorg)
    {
      RefreshBest();
      LatestLeafIsDeepest(nodes, children, leaves, best);
      RootIsAncestor(nodes, root, best);
      var ok, visited := Descend(nodes, best, root, root);
      SubtreePath(f, root, best);
      ReversedUpPath(f, root, best);
      ReorgThrough(f, old(best), root, best, away);
      SubtreeOk(f, root);
      IndexesWithin(nodes, f, Reversed(visited));
      reorg := away.(apply := away.apply + Indexes(nodes, Reversed(visited)));
    }

    method SetJustified(index: BlockIndex)
      modifies this`justified
      ensures justified == index
    {
      justified := index;
    }

    /** Chooses the best block again while the old one, no longer a leaf, is still in the tree. */
    method LeaveBest() returns (reorg: Reorg)
      requires TreeOk(nodes, root) && best in nodes && children.Keys == nodes.Keys
      requires ShapeOk(nodes - {best}, children - {best}, leaves, root)
      modifies this`best
      ensures IsDeepest(nodes - {old(best)}, best)
      ensures IsReorg(nodes, old(best), best, reorg)
    {
      var oldBest := best;
      RefreshBest();
      LatestLeafIsDeepest(nodes - {oldBest}, children - {oldBest}, leaves, best);
      RootIsAncestor(nodes, root, oldBest);
      RootIsAncestor(nodes, root, best);
      reorg := ComputeReorg(nodes, oldBest, best, root);
    }

    /** The best block once `hash`, no longer a leaf, is to go, and the reorganisation when it was the best. */
    method LeaveLeaf(hash: Root) returns (reorg: Option<Reorg>)
      requires TreeOk(nodes, root) && IsDeepest(nodes, best) && hash in nodes && children.Keys == nodes.Keys
      requires ShapeOk(nodes - {hash}, children - {hash}, leaves, root)
      modifies this`best
      ensures IsDeepest(nodes - {hash}, best) && (old(best) != hash ==> best == old(best))
      ensures justified == old(justified)
      ensures reorg.Some? <==> old(best) == hash
      ensures reorg.Some? ==> IsReorg(nodes, hash, best, reorg.value)
    {
      if hash != best {
        return None;
      }
      var away := LeaveBest();
      return Some(away);
    }

    /** Takes a leaf out of its parent's child list and of the leaves. */
    method Unlink(hash: Root)
      requires ShapeOk(nodes, children, leaves, root) && hash in leaves && hash != root
      modifies this`children, this`leaves
      ensures children.Keys == nodes.Keys && ShapeOk(nodes - {hash}, children - {hash}, leaves, root)
      ensures justified == old(justified)
    {
      RemoveKeepsShape(nodes, children, leaves, root, hash);
      var parent := nodes[hash].parent.value;
      children := children[parent := Without(children[parent], hash)];
      if children[parent] == [] {
        leaves := leaves[parent := nodes[parent].slot];
      }
      leaves := leaves - {hash};
    }

    /** Removes a leaf other than the root. */
    method RemoveLeaf(hash: Root) returns (changes: ReorgAndPrune)
      requires Valid() && hash in leaves && hash != root
      modifies this
      ensures Valid() && root == old(root) && justified == old(justified)
      ensures nodes == old(nodes) - {hash}
      ensures changes.prune == [BlockIndex(old(nodes[hash].slot), hash)]
      ensures old(best) != hash ==> best == old(best)
      ensures changes.reorg.Some? <==> old(best) == hash
      ensures changes.reorg.Some? ==> IsReorg(old(nodes), hash, best, changes.reorg.value)
    {
      var index := BlockIndex(nodes[hash].slot, hash);
      Unlink(hash);
      var reorg := LeaveLeaf(hash);
      Discard(hash);
      changes := ReorgAndPrune(reorg, [index]);
    }

    /** Erases an unlinked node. */
    method Discard(hash: Root)
      requires CacheOk(nodes - {hash}, children - {hash}, leaves, root, best)
      modifies this`children, this`nodes
      ensures Valid() && nodes == old(nodes) - {hash} && justified == old(justified)
    {
      children := children - {hash};
      nodes := nodes - {hash};
    }
  }

  // ----- finalization: the walk up from the new root

  /** One step up adds exactly the next ancestor. */
  lemma ErasedStep(f: Forest, top: Root, r: Root)
    requires WellFormed(f) && IsAncestor(f, top, r) && HasParent(f, top)
    ensures Erased(f, Parent(f, top), r) == Erased(f, top, r) + {Parent(f, top)}
    ensures Parent(f, top) !in Erased(f, top, r)
  {
    var p := Parent(f, top);
    AncestorTrans(f, p, top, r);
    AncestorSlot(f, top, r);
    if IsAncestor(f, top, p) { AncestorSlot(f, top, p); }
    forall b | b in Erased(f, p, r) ensures b == p || b in Erased(f, top, r) {
      AncestorsComparable(f, top, b, r);
      if b != p && b != top && IsAncestor(f, b, top) {
        AncestorSlot(f, b, p);
        AncestorSlot(f, p, b);
      }
    }
    forall b | b in Erased(f, top, r) ensures b in Erased(f, p, r) {
      AncestorTrans(f, p, top, b);
    }
  }

  /** The other children of the next ancestor are what joins the queue. */
  lemma HangsOffStep(f: Forest, ch: Children, top: Root, r: Root, queue: seq<Root>)
    requires WellFormed(f) && ChildrenOk(f, ch) && IsAncestor(f, top, r) && HasParent(f, top)
    requires QueueOk(f, top, r, queue)
    ensures QueueOk(f, Parent(f, top), r, queue + Without(ch[Parent(f, top)], top))
  {
    var p := Parent(f, top);
    var others := Without(ch[p], top);
    ErasedStep(f, top, r);
    WithoutRemovesOne(ch[p], top);
    forall x ensures x in others <==> IsChild(f, p, x) && !IsAncestor(f, x, r) {
      assert x in ch[p] <==> IsChild(f, p, x);
      if IsChild(f, p, x) && x != top { SiblingOffPath(f, r, p, top, x); }
    }
    forall i, j | 0 <= i < |queue| && 0 <= j < |others| ensures queue[i] != others[j] {
      assert queue[i] in queue && others[j] in others;
    }
  }

  /** At the root, the queue is the start of the cut-off blocks. */
  lemma QueueStartsCut(f: Forest, root: Root, r: Root, queue: seq<Root>)
    requires TreeOk(f, root) && r in f && QueueOk(f, root, r, queue)
    ensures CutList(f, r, queue, 0)
  {
    forall x | HasParent(f, x)
      ensures HangsOff(f, Erased(f, root, r), r, x) <==> x in Side(f, r) && IsAncestor(f, Parent(f, x), r)
    {
      HangsOffIsCut(f, root, r, x);
    }
    forall i, j | 0 <= i < |queue| && 0 <= j < |queue| ensures !IsChild(f, queue[j], queue[i]) {
      assert queue[i] in queue && queue[j] in queue;
    }
  }

  lemma HangsOffIsCut(f: Forest, root: Root, r: Root, x: Root)
    requires TreeOk(f, root) && r in f && HasParent(f, x)
    ensures HangsOff(f, Erased(f, root, r), r, x) <==> x in Side(f, r) && IsAncestor(f, Parent(f, x), r)
  {
    var p := Parent(f, x);
    RootIsAncestor(f, root, p);
    if IsAncestor(f, p, r) && IsAncestor(f, r, x) {
      AncestorSlot(f, p, r);
      if r != x { AncestorSlot(f, r, p); }
    }
  }

  // ----- finalization: the breadth-first pass over cut-off blocks

  lemma KidsOfCutAreCut(f: Forest, r: Root, p: Root, c: Root)
    requires WellFormed(f) && r in f && p in Side(f, r) && IsChild(f, p, c)
    ensures c in Side(f, r) && !IsAncestor(f, p, r)
  {
    if IsAncestor(f, c, r) { AncestorTrans(f, p, c, r); }
  }

  /** Taking the next block off the queue and adding its children keeps the list a cut list. */
  lemma CutStep(f: Forest, ch: Children, r: Root, s: seq<Root>, k: nat)
    requires WellFormed(f) && ChildrenOk(f, ch) && r in f && k < |s| && CutList(f, r, s, k)
    ensures s[k] in f && CutList(f, r, s + ch[s[k]], k + 1)
  {
    var p := s[k];
    assert p in s && p in Side(f, r);
    var kids := ch[p];
    var t := s + kids;
    forall c | c in kids ensures IsChild(f, p, c) && c in Side(f, r) && c !in s {
      KidsOfCutAreCut(f, r, p, c);
    }
    assert t[..k + 1] == s[..k] + [p];
    assert Distinct(t) by {
      forall i, j | 0 <= i < j < |t| ensures t[i] != t[j] {
        if i < |s| <= j { assert t[i] in s && t[j] in kids; }
      }
    }
    CutStepOrder(f, r, s, k, kids);
    forall x | x in Side(f, r) && HasParent(f, x)
      ensures x in t <==> IsAncestor(f, Parent(f, x), r) || Parent(f, x) in t[..k + 1]
    {
      assert x in kids <==> IsChild(f, p, x);
    }
  }

  lemma CutStepOrder(f: Forest, r: Root, s: seq<Root>, k: nat, kids: seq<Root>)
    requires WellFormed(f) && k < |s| && CutList(f, r, s, k)
    requires forall c | c in kids :: IsChild(f, s[k], c) && c in Side(f, r) && c !in s
    ensures var t := s + kids;
            forall i, j | 0 <= i < |t| && 0 <= j < |t| && IsChild(f, t[j], t[i]) :: j < i
  {
    var t := s + kids;
    assert forall i | |s| <= i < |t| :: t[i] in kids;
    assert forall i | 0 <= i < |s| :: t[i] in s;
    forall i, j | 0 <= i < |t| && 0 <= j < |t| && IsChild(f, t[j], t[i]) ensures j < i {
      if i >= |s| {
        assert t[i] in kids;
        assert t[j] == s[k];
      }
    }
  }

  /** With the queue drained, every cut-off block has been taken. */
  lemma {:induction false} CutComplete(f: Forest, root: Root, r: Root, s: seq<Root>, x: Root)
    requires TreeOk(f, root) && r in f && CutList(f, r, s, |s|) && x in Side(f, r)
    ensures x in s
    decreases f[x].slot
  {
    RootIsAncestor(f, root, r);
    var p := Parent(f, x);
    assert s[..|s|] == s;
    if !IsAncestor(f, p, r) {
      CutComplete(f, root, r, s, p);
    }
  }

  /** The reversed list of cut-off blocks is the prune list of the source. */
  lemma PruneListFromCut(f: Forest, root: Root, r: Root, s: seq<Root>)
    requires TreeOk(f, root) && r in f && CutList(f, r, s, |s|)
    ensures forall x | x in s :: x in f
    ensures IsPruneList(f, r, Reversed(Indexes(f, s)))
  {
    assert forall x | x in s :: x in Side(f, r);
    var prune := Reversed(Indexes(f, s));
    var n := |s|;
    assert forall i | 0 <= i < n :: prune[i] == Indexes(f, s)[n - 1 - i];
    assert forall i | 0 <= i < n :: prune[i].hash == s[n - 1 - i];
    forall x | x in Side(f, r) ensures exists i :: 0 <= i < |prune| && prune[i].hash == x {
      CutComplete(f, root, r, s, x);
      var k :| 0 <= k < |s| && s[k] == x;
      assert prune[n - 1 - k].hash == x;
    }
    forall i | 0 <= i < |prune| ensures prune[i].hash in Side(f, r) {
      assert s[n - 1 - i] in s;
    }
  }

  lemma DropOne<V>(m: map<Root, V>, gone: set<Root>, x: Root)
    ensures m - gone - {x} == m - (gone + {x})
  {
  }

  lemma QueueStart(f: Forest, r: Root)
    requires WellFormed(f) && r in f
    ensures Erased(f, r, r) == {} && QueueOk(f, r, r, [])
  {
    forall b | b in f && b != r && IsAncestor(f, r, b) ensures !IsAncestor(f, b, r) {
      AncestorSlot(f, r, b);
      if IsAncestor(f, b, r) { AncestorSlot(f, b, r); }
    }
  }

  /** Taking the next block off the queue: it is still in the tree, and everything stays in step. */
  lemma CutNext(f: Forest, ch: Children, leaves: map<Root, nat>, root: Root, r: Root, pruned: seq<Root>, queue: seq<Root>)
    requires WellFormed(f) && ChildrenOk(f, ch) && LeavesOk(f, ch, leaves)
    requires r in f && queue != [] && CutList(f, r, pruned + queue, |pruned|)
    ensures var block := queue[0];
            && block in ch && block in f && block !in Gone(f, root, r, pruned)
            && block in Side(f, r) && block !in ToSet(pruned)
            && ToSet(pruned + [block]) == ToSet(pruned) + {block}
            && CutList(f, r, pruned + [block] + (queue[1..] + ch[block]), |pruned| + 1)
            && f - Gone(f, root, r, pruned) - {block} == f - Gone(f, root, r, pruned + [block])
            && ch - Gone(f, root, r, pruned) - {block} == ch - Gone(f, root, r, pruned + [block])
            && (if ch[block] == [] then leaves - ToSet(pruned) - {block} else leaves - ToSet(pruned))
               == leaves - ToSet(pruned + [block])
  {
    var block := queue[0];
    var s := pruned + queue;
    assert s[|pruned|] == block && s[..|pruned|] == pruned && block in s;
    CutStep(f, ch, r, s, |pruned|);
    assert s + ch[block] == pruned + [block] + (queue[1..] + ch[block]);
    assert ToSet(pruned + [block]) == ToSet(pruned) + {block};
    assert Gone(f, root, r, pruned + [block]) == Gone(f, root, r, pruned) + {block};
    DropOne(f, Gone(f, root, r, pruned), block);
    DropOne(ch, Gone(f, root, r, pruned), block);
    DropOne(leaves, ToSet(pruned), block);
  }

  /** What is left after both loops is the subtree of `r`. */
  lemma KeptIsSubtree(f: Forest, ch: Children, leaves: map<Root, nat>, root: Root, r: Root, pruned: seq<Root>)
    requires ShapeOk(f, ch, leaves, root) && r in f && CutList(f, r, pruned, |pruned|)
    ensures var g := f - Gone(f, root, r, pruned);
            r in g && g[r := g[r].(parent := None)] == Subtree(f, r)
    ensures ShapeOk(Subtree(f, r), ch - Gone(f, root, r, pruned), leaves - ToSet(pruned), r)
  {
    var ch' := map b | b in ch && IsAncestor(f, r, b) :: ch[b];
    assert ch' == ch - Gone(f, root, r, pruned) by { KeptMaps(f, ch, root, r, pruned); }
    KeptMaps(f, ch, root, r, pruned);
    assert TreeOk(Subtree(f, r), r) by { SubtreeOk(f, r); }
    assert ChildrenOk(Subtree(f, r), ch') by { SubtreeChildren(f, ch, r); }
    assert LeavesOk(Subtree(f, r), ch', leaves - ToSet(pruned)) by {
      KeptLeaves(f, ch, leaves, root, r, pruned);
      SubtreeLeaves(f, ch, r, leaves - ToSet(pruned));
    }
  }

  lemma SubtreeLeaves(f: Forest, ch: Children, r: Root, kept: map<Root, nat>)
    requires WellFormed(f) && r in f && ch.Keys == f.Keys
    requires kept == map b | b in f && IsAncestor(f, r, b) && ch[b] == [] :: f[b].slot
    ensures LeavesOk(Subtree(f, r), map b | b in ch && IsAncestor(f, r, b) :: ch[b], kept)
  {
  }

  lemma KeptMaps(f: Forest, ch: Children, root: Root, r: Root, pruned: seq<Root>)
    requires TreeOk(f, root) && r in f && CutList(f, r, pruned, |pruned|) && ch.Keys == f.Keys
    ensures var g := f - Gone(f, root, r, pruned);
            r in g && g[r := g[r].(parent := None)] == Subtree(f, r)
    ensures ch - Gone(f, root, r, pruned) == map b | b in ch && IsAncestor(f, r, b) :: ch[b]
  {
    forall b | b in f ensures IsAncestor(f, r, b) <==> b !in Gone(f, root, r, pruned) {
      KeptBlock(f, root, r, pruned, b);
    }
  }

  lemma KeptBlock(f: Forest, root: Root, r: Root, pruned: seq<Root>, b: Root)
    requires TreeOk(f, root) && r in f && CutList(f, r, pruned, |pruned|) && b in f
    ensures IsAncestor(f, r, b) <==> b !in Gone(f, root, r, pruned)
  {
    RootIsAncestor(f, root, b);
    if b in Side(f, r) { CutComplete(f, root, r, pruned, b); }
    if IsAncestor(f, r, b) && IsAncestor(f, b, r) {
      AncestorSlot(f, r, b);
      AncestorSlot(f, b, r);
    }
  }

  /** No ancestor of `r` was a leaf, so dropping the cut-off leaves is enough. */
  lemma KeptLeaves(f: Forest, ch: Children, leaves: map<Root, nat>, root: Root, r: Root, pruned: seq<Root>)
    requires TreeOk(f, root) && ChildrenOk(f, ch) && LeavesOk(f, ch, leaves)
    requires r in f && CutList(f, r, pruned, |pruned|)
    ensures leaves - ToSet(pruned) == map b | b in f && IsAncestor(f, r, b) && ch[b] == [] :: f[b].slot
  {
    forall b | b in Erased(f, root, r) ensures ch[b] != [] {
      var c := ChildOnPath(f, b, r);
      assert IsChild(f, b, c);
      assert c in ch[b];
    }
    forall b | b in f ensures IsAncestor(f, r, b) <==> b !in Gone(f, root, r, pruned) {
      KeptBlock(f, root, r, pruned, b);
    }
  }

  lemma IndexesWithin(g: Forest, f: Forest, path: seq<Root>)
    requires Within(g, f) && forall x | x in path :: x in g
    ensures Indexes(g, path) == Indexes(f, path)
  {
  }

  /** A best block that is kept stays the latest one. */
  lemma SubtreeDeepest(f: Forest, r: Root, best: Root)
    requires WellFormed(f) && r in f && IsDeepest(f, best) && IsAncestor(f, r, best)
    ensures IsDeepest(Subtree(f, r), best)
  {
  }

  /** Reverting from a cut-off best block to `r` and descending to the new best is one reorganisation. */
  lemma ReorgThrough(f: Forest, from: Root, r: Root, to: Root, away: Reorg)
    requires WellFormed(f) && IsReorg(f, from, r, away)
    requires IsAncestor(f, r, to) && !IsAncestor(f, r, from)
    ensures IsReorg(f, from, to, away.(apply := away.apply + Indexes(f, DownPath(f, r, to))))
  {
    var c := away.common.hash;
    DownPathCompose(f, c, r, to);
    forall d | IsAncestor(f, d, from) && IsAncestor(f, d, to) ensures IsAncestor(f, d, c) {
      AncestorsComparable(f, d, r, to);
      if IsAncestor(f, r, d) { AncestorTrans(f, r, d, from); }
    }
  }

  /** A childless block other than the root can be taken out. */
  lemma RemoveKeepsShape(f: Forest, ch: Children, leaves: map<Root, nat>, root: Root, hash: Root)
    requires ShapeOk(f, ch, leaves, root) && hash in leaves && hash != root
    ensures HasParent(f, hash) && Parent(f, hash) != hash
    ensures var p := Parent(f, hash);
            var rest := Without(ch[p], hash);
            ShapeOk(f - {hash}, ch[p := rest] - {hash},
                    (if rest == [] then leaves[p := f[p].slot] else leaves) - {hash}, root)
  {
    forall b ensures !IsChild(f, hash, b) {
      assert b in ch[hash] <==> IsChild(f, hash, b);
    }
    RemoveKeepsTree(f, root, hash);
    RemoveKeepsChildren(f, ch, hash);
    RemoveKeepsLeaves(f, ch, leaves, hash);
  }

  lemma RemoveKeepsTree(f: Forest, root: Root, hash: Root)
    requires TreeOk(f, root) && hash in f && hash != root && forall b :: !IsChild(f, hash, b)
    ensures TreeOk(f - {hash}, root)
  {
    var g := f - {hash};
    forall b | b in g && b != root ensures HasParent(g, b) && Parent(g, b) == Parent(f, b) {
      assert HasParent(f, b) && !IsChild(f, hash, b);
    }
  }

  lemma RemoveKeepsChildren(f: Forest, ch: Children, hash: Root)
    requires ChildrenOk(f, ch) && HasParent(f, hash) && Parent(f, hash) != hash
    requires forall b :: !IsChild(f, hash, b)
    ensures ChildrenOk(f - {hash}, ch[Parent(f, hash) := Without(ch[Parent(f, hash)], hash)] - {hash})
  {
    var p := Parent(f, hash);
    var ch' := ch[p := Without(ch[p], hash)] - {hash};
    WithoutRemovesOne(ch[p], hash);
    forall q, c | q in ch' ensures c in ch'[q] <==> IsChild(f - {hash}, q, c) {
      assert c in ch[q] <==> IsChild(f, q, c);
    }
  }

  lemma RemoveKeepsLeaves(f: Forest, ch: Children, leaves: map<Root, nat>, hash: Root)
    requires ChildrenOk(f, ch) && LeavesOk(f, ch, leaves) && HasParent(f, hash) && Parent(f, hash) != hash
    ensures var p := Parent(f, hash);
            var rest := Without(ch[p], hash);
            LeavesOk(f - {hash}, ch[p := rest] - {hash},
                     (if rest == [] then leaves[p := f[p].slot] else leaves) - {hash})
  {
    var p := Parent(f, hash);
    assert hash in ch[p] by { assert IsChild(f, p, hash); }
  }

  lemma LatestExists(s: set<nat>)
    requires s != {}
    ensures exists m :: m in s && forall x | x in s :: x <= m
  {
    var m :| m in s;
    if s != {m} {
      assert s == {m} + (s - {m});
      LatestExists(s - {m});
      var m' :| m' in s - {m} && forall x | x in s - {m} :: x <= m';
      var top := if m' < m then m else m';
      assert top in s && forall x | x in s :: x <= top;
    }
  }

  lemma AddKeepsOk(f: Forest, ch: Children, leaves: map<Root, nat>, root: Root, best: Root,
                   hash: Root, slot: nat, parent: Root)
    requires CacheOk(f, ch, leaves, root, best) && hash !in f && parent in f && f[parent].slot < slot
    ensures CacheOk(f[hash := Node(slot, Some(parent))], ch[parent := ch[parent] + [hash]][hash := []],
                    (leaves - {parent})[hash := slot], root, if slot > f[best].slot then hash else best)
  {
    AddOk(f, ch, root, hash, slot, parent);
    AddLeaves(f, ch, leaves, hash, slot, parent);
  }

  lemma AddLeaves(f: Forest, ch: Children, leaves: map<Root, nat>, hash: Root, slot: nat, parent: Root)
    requires ch.Keys == f.Keys && LeavesOk(f, ch, leaves) && hash !in f && parent in f
    ensures var ch' := ch[parent := ch[parent] + [hash]][hash := []];
            var f' := f[hash := Node(slot, Some(parent))];
            ch'.Keys == f'.Keys && LeavesOk(f', ch', (leaves - {parent})[hash := slot])
  {
  }

  lemma AddTree(f: Forest, root: Root, hash: Root, slot: nat, parent: Root)
    requires TreeOk(f, root) && hash !in f && parent in f && f[parent].slot < slot
    ensures TreeOk(f[hash := Node(slot, Some(parent))], root)
  {
    var f' := f[hash := Node(slot, Some(parent))];
    assert forall b | b in f && b != root :: HasParent(f, b);
    assert forall b | HasParent(f', b) && b != hash :: HasParent(f, b);
  }

  lemma AddChild(f: Forest, ch: Children, root: Root, hash: Root, slot: nat, parent: Root, p: Root, c: Root)
    requires TreeOk(f, root) && ChildrenOk(f, ch) && hash !in f && parent in f && (p in f || p == hash)
    ensures var ch' := ch[parent := ch[parent] + [hash]][hash := []];
            c in ch'[p] <==> IsChild(f[hash := Node(slot, Some(parent))], p, c)
  {
    if p in ch { assert c in ch[p] <==> IsChild(f, p, c); }
    assert c in f && c != root ==> HasParent(f, c);
  }

  lemma AddOk(f: Forest, ch: Children, root: Root, hash: Root, slot: nat, parent: Root)
    requires TreeOk(f, root) && ChildrenOk(f, ch) && hash !in f && parent in f && f[parent].slot < slot
    ensures var f' := f[hash := Node(slot, Some(parent))];
            TreeOk(f', root) && ChildrenOk(f', ch[parent := ch[parent] + [hash]][hash := []])
  {
    AddTree(f, root, hash, slot, parent);
    var ch' := ch[parent := ch[parent] + [hash]][hash := []];
    assert hash !in ch[parent] by { assert hash in ch[parent] <==> IsChild(f, parent, hash); }
    forall p, c | p in ch' ensures c in ch'[p] <==> IsChild(f[hash := Node(slot, Some(parent))], p, c) {
      AddChild(f, ch, root, hash, slot, parent, p, c);
    }
  }
}
