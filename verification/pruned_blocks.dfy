/**
 * What finality prunes never comes back: no sequence of imports stores a pruned block again. So a justified
 * block that finality has pruned stays the justified block of the tree for good.
 */
module PrunedBlocks {
  import opened Types
  import opened StateTransition
  import opened Chains
  import R = Refinement
  import opened Forests
  import opened CachedTrees
  import opened BlockTrees
  import opened BlockImports

  /**
   * A path of blocks that are not stored, each on top of the one before, hanging off a block that is stored
   * and not cached.
   */
  ghost predicate Lost(env: Env, s: Snapshot, path: seq<Block>) {
    && path != [] && (forall i | 0 <= i < |path| :: BlockRoot(env, path[i]) !in s.headers)
    && path[0].parentRoot in s.headers && path[0].parentRoot !in s.nodes
    && (forall i | 0 < i < |path| :: path[i].parentRoot == BlockRoot(env, path[i - 1]))
  }

  /** A block that can be stored is not on such a path: its parent is cached. */
  lemma NewIsNotLost(env: Env, s: Snapshot, path: seq<Block>, block: Block, i: nat)
    requires R.CollisionFree(env) && Lost(env, s, path) && Within(s.nodes, s.headers)
    requires block.parentRoot in s.nodes && i < |path|
    ensures BlockRoot(env, path[i]) != BlockRoot(env, block)
  {
    assert path[i].parentRoot !in s.nodes by {
      if i > 0 { assert BlockRoot(env, path[i - 1]) !in s.headers; }
    }
    if BlockRoot(env, path[i]) == BlockRoot(env, block) {
      assert R.Collide(env, GetHeader(env, path[i]), GetHeader(env, block));
    }
  }

  lemma LostAfterAdd(env: Env, s: Snapshot, path: seq<Block>, block: Block, hash: Root, node: Node)
    requires R.CollisionFree(env) && Lost(env, s, path) && Within(s.nodes, s.headers)
    requires block.parentRoot in s.nodes && hash == BlockRoot(env, block) && hash !in s.headers
    ensures Lost(env, WithNode(s, hash, node), path)
  {
    forall i | 0 <= i < |path| ensures BlockRoot(env, path[i]) != hash {
      NewIsNotLost(env, s, path, block, i);
    }
  }

  lemma LostAfterFollow(env: Env, s: Snapshot, path: seq<Block>, jus: Checkpoint, fin: Checkpoint, r: TreeResult,
                        s': Snapshot)
    requires Lost(env, s, path) && Followed(s, jus, fin, r, s')
    ensures Lost(env, s', path)
  {
  }

  /** Whatever block arrives, a lost path stays lost. */
  lemma LostStaysLost(env: Env, k: Kept, block: Block, signaturesOk: bool, r: ImportResult, k': Kept, path: seq<Block>)
    requires R.CollisionFree(env) && Lost(env, k.tree, path) && Within(k.tree.nodes, k.tree.headers)
    requires k.states.Keys == k.tree.headers.Keys && Handled(env, k, block, signaturesOk, r, k')
    ensures Lost(env, k'.tree, path)
  {
    match Judgement(env, k.states, block, signaturesOk) {
      case Dropped(_) =>
      case Accepted(post) =>
        if block.parentRoot in k.tree.nodes {
          var hash, node := BlockRoot(env, block), Node(block.slot, Some(block.parentRoot));
          LostAfterAdd(env, k.tree, path, block, hash, node);
          LostAfterFollow(env, WithNode(k.tree, hash, node), path, post.justified, post.finalized,
                          FollowAnswer(WithNode(k.tree, hash, node), post.justified), k'.tree);
        }
    }
  }

  // ----- what finality prunes is lost

  /** The last block of a chain names the block before it. */
  lemma LastNamesParent(env: Env, config: nat, validators: seq<nat>, blocks: seq<Block>, s: State)
    requires NonZeroStates(env) && Reached(env, config, validators, blocks, s) && blocks != []
    ensures blocks[|blocks| - 1].parentRoot == BlockRoot(env, HeadBlock(env, config, validators, Front(blocks)))
  {
    var front := Front(blocks);
    var mid := Run(env, GenesisState(env, config, validators), front).value;
    AcceptanceIsExact(env, config, validators, front, mid, blocks[|blocks| - 1]);
  }

  /** The block behind a stored hash names the stored parent. */
  lemma StoredNamesParent(env: Env, config: nat, validators: seq<nat>, h: Forest, states: map<Root, State>,
                          chains: map<Root, seq<Block>>, b: Root)
    requires EnvOk(env, validators) && ChainsOk(env, config, validators, h, states, chains) && HasParent(h, b)
    ensures var block := HeadBlock(env, config, validators, chains[b]);
            BlockRoot(env, block) == b && block.parentRoot == Parent(h, b)
  {
    assert ChainLinked(env, config, validators, h, chains, b);
    assert ChainLinked(env, config, validators, h, chains, Parent(h, b));
    assert StateReached(env, config, validators, h, states, chains, b);
    LastNamesParent(env, config, validators, chains[b], states[b]);
  }

  /** The parent of a cut-off block is cut off too, or is above the finalized block. */
  lemma CutParent(f: Forest, root: Root, fin: Root, x: Root)
    requires TreeOk(f, root) && fin in f && x in Side(f, fin)
    ensures HasParent(f, x) && (Parent(f, x) in Side(f, fin) || Parent(f, x) !in Subtree(f, fin))
  {
    RootIsAncestor(f, root, fin);
  }

  lemma LostBelow(env: Env, s: Snapshot, above: seq<Block>, block: Block)
    requires Lost(env, s, above) && BlockRoot(env, block) !in s.headers
    requires block.parentRoot == BlockRoot(env, above[|above| - 1])
    ensures Lost(env, s, above + [block])
  {
    var path := above + [block];
    forall i | 0 <= i < |path|
      ensures BlockRoot(env, path[i]) !in s.headers
      ensures i > 0 ==> path[i].parentRoot == BlockRoot(env, path[i - 1])
    {
      if i < |above| { assert path[i] == above[i]; }
    }
    assert path[0] == above[0];
  }

  /** Blocks behind stored hashes, each naming its stored parent. */
  ghost predicate Behind(env: Env, h: Forest, blocks: map<Root, Block>) {
    forall b | HasParent(h, b) :: b in blocks && BlockRoot(env, blocks[b]) == b && blocks[b].parentRoot == Parent(h, b)
  }

  lemma BlocksBehind(env: Env, config: nat, validators: seq<nat>, h: Forest, states: map<Root, State>, f: Forest,
                     justified: BlockIndex) returns (blocks: map<Root, Block>)
    requires Consistent(env, config, validators, h, states, f, justified)
    ensures Behind(env, h, blocks)
  {
    var chains, named :| ImportOk(env, config, validators, h, states, chains, f, justified, named);
    blocks := map b | b in h :: HeadBlock(env, config, validators, chains[b]);
    forall b | HasParent(h, b) ensures BlockRoot(env, blocks[b]) == b && blocks[b].parentRoot == Parent(h, b) {
      StoredNamesParent(env, config, validators, h, states, chains, b);
    }
  }

  /** The way from a cut-off block up to the finalized chain. */
  lemma {:induction false} PathToFinalized(env: Env, s: Snapshot, blocks: map<Root, Block>, fin: Root, s': Snapshot,
                                           x: Root) returns (path: seq<Block>)
    requires Behind(env, s.headers, blocks) && TreeOk(s.nodes, s.root) && Within(s.nodes, s.headers)
    requires fin in s.nodes && x in Side(s.nodes, fin)
    requires s'.nodes == Subtree(s.nodes, fin) && s'.headers == s.headers - Side(s.nodes, fin)
    ensures Lost(env, s', path) && BlockRoot(env, path[|path| - 1]) == x
    decreases s.nodes[x].slot
  {
    CutParent(s.nodes, s.root, fin, x);
    var p := Parent(s.nodes, x);
    assert HasParent(s.headers, x) && Parent(s.headers, x) == p;
    if p in Side(s.nodes, fin) {
      var above := PathToFinalized(env, s, blocks, fin, s', p);
      LostBelow(env, s', above, blocks[x]);
      path := above + [blocks[x]];
    } else {
      path := [blocks[x]];
    }
  }

  lemma TreeAfterAdd(s: Snapshot, anchor: Root, hash: Root, slot: nat, parent: Root)
    requires TreeOk(s.nodes, s.root) && StoredOk(s.nodes, s.root, s.headers, anchor)
    requires parent in s.nodes && s.nodes[parent].slot < slot && hash !in s.headers
    ensures var s' := WithNode(s, hash, Node(slot, Some(parent)));
            TreeOk(s'.nodes, s'.root) && StoredOk(s'.nodes, s'.root, s'.headers, anchor)
  {
    AddStored(s.nodes, s.root, s.headers, anchor, hash, slot, parent);
    var f := s.nodes[hash := Node(slot, Some(parent))];
    assert forall b | b in s.nodes && b != s.root :: HasParent(s.nodes, b) && HasParent(f, b);
  }

  lemma BehindAfterAdd(env: Env, h: Forest, anchor: Root, blocks: map<Root, Block>, hash: Root, block: Block)
    requires TreeOk(h, anchor) && Behind(env, h, blocks) && hash !in h && hash == BlockRoot(env, block)
    requires block.parentRoot in h
    ensures Behind(env, h[hash := Node(block.slot, Some(block.parentRoot))], blocks[hash := block])
  {
    var h' := h[hash := Node(block.slot, Some(block.parentRoot))];
    forall b | HasParent(h', b)
      ensures var c := blocks[hash := block];
              b in c && BlockRoot(env, c[b]) == b && c[b].parentRoot == Parent(h', b)
    {
      if b != hash { assert HasParent(h, b); }
    }
  }

  /** Every block that leaves the database when a block arrives is lost. */
  lemma PrunedIsLost(env: Env, config: nat, validators: seq<nat>, k: Kept, anchor: Root, block: Block,
                     signaturesOk: bool, r: ImportResult, k': Kept, x: Root) returns (path: seq<Block>)
    requires Consistent(env, config, validators, k.tree.headers, k.states, k.tree.nodes, k.tree.justified)
    requires TreeOk(k.tree.nodes, k.tree.root) && StoredOk(k.tree.nodes, k.tree.root, k.tree.headers, anchor)
    requires Handled(env, k, block, signaturesOk, r, k') && x in k.tree.headers && x !in k'.tree.headers
    ensures Lost(env, k'.tree, path) && BlockRoot(env, path[|path| - 1]) == x
  {
    var hash, post := BlockRoot(env, block), Judgement(env, k.states, block, signaturesOk).post;
    AcceptedIsLater(env, config, validators, k.tree.headers, k.states, k.tree.nodes, k.tree.justified, block, post);
    var blocks := BlocksBehind(env, config, validators, k.tree.headers, k.states, k.tree.nodes, k.tree.justified);
    path := PrunedPath(env, k.tree, anchor, block, hash, post.justified, post.finalized, k'.tree, blocks, x);
  }

  lemma PrunedPath(env: Env, s: Snapshot, anchor: Root, block: Block, hash: Root, jus: Checkpoint, fin: Checkpoint,
                   s': Snapshot, blocks: map<Root, Block>, x: Root) returns (path: seq<Block>)
    requires TreeOk(s.nodes, s.root) && StoredOk(s.nodes, s.root, s.headers, anchor) && Behind(env, s.headers, blocks)
    requires hash == BlockRoot(env, block) && hash !in s.headers && block.parentRoot in s.nodes
    requires s.nodes[block.parentRoot].slot < block.slot && x in s.headers && x !in s'.headers
    requires var added := WithNode(s, hash, Node(block.slot, Some(block.parentRoot)));
             Followed(added, jus, fin, FollowAnswer(added, jus), s')
    ensures Lost(env, s', path) && BlockRoot(env, path[|path| - 1]) == x
  {
    TreeAfterAdd(s, anchor, hash, block.slot, block.parentRoot);
    BehindAfterAdd(env, s.headers, anchor, blocks, hash, block);
    path := PathToFinalized(env, WithNode(s, hash, Node(block.slot, Some(block.parentRoot))), blocks[hash := block],
                            fin.root, s', x);
  }

  // ----- the justified block

  /** The path ends in the block with this hash. */
  ghost predicate LostAt(env: Env, s: Snapshot, path: seq<Block>, hash: Root) {
    Lost(env, s, path) && BlockRoot(env, path[|path| - 1]) == hash
  }

  ghost predicate IsLost(env: Env, s: Snapshot, hash: Root) {
    exists path :: LostAt(env, s, path, hash)
  }

  /** The justified block of the tree is cached, or finality has pruned it. */
  ghost predicate CachedOrLost(env: Env, s: Snapshot) {
    || (s.justified.hash in s.nodes && s.nodes[s.justified.hash].slot == s.justified.slot)
    || IsLost(env, s, s.justified.hash)
  }

  /** A lost justified block is the justified block for good, whatever states justify. */
  lemma LostJustifiedStays(env: Env, k: Kept, block: Block, signaturesOk: bool, r: ImportResult, k': Kept)
    requires R.CollisionFree(env) && Within(k.tree.nodes, k.tree.headers) && k.states.Keys == k.tree.headers.Keys
    requires IsLost(env, k.tree, k.tree.justified.hash) && Handled(env, k, block, signaturesOk, r, k')
    ensures k'.tree.justified == k.tree.justified && IsLost(env, k'.tree, k'.tree.justified.hash)
  {
    var path :| LostAt(env, k.tree, path, k.tree.justified.hash);
    LostStaysLost(env, k, block, signaturesOk, r, k', path);
    var ruling := Judgement(env, k.states, block, signaturesOk);
    if ruling.Accepted? && block.parentRoot in k.tree.nodes {
      LostAfterAdd(env, k.tree, path, block, BlockRoot(env, block), Node(block.slot, Some(block.parentRoot)));
    }
    assert LostAt(env, k'.tree, path, k'.tree.justified.hash);
  }

  /** A justified block that was cached can only be pruned, not replaced by a block that is not stored. */
  lemma CachedJustifiedStep(env: Env, k: Kept, block: Block, signaturesOk: bool, r: ImportResult, k': Kept)
    requires Within(k.tree.nodes, k.tree.headers) && k.tree.justified.hash in k.tree.nodes
    requires Handled(env, k, block, signaturesOk, r, k') && k'.tree.justified.hash !in k'.tree.headers
    requires Within(k'.tree.nodes, k'.tree.headers)
    ensures k'.tree.justified.hash in k.tree.headers
  {
  }

  /** So on every run it is one or the other. */
  lemma JustifiedIsCachedOrLost(env: Env, config: nat, validators: seq<nat>, k: Kept, anchor: Root, block: Block,
                                signaturesOk: bool, r: ImportResult, k': Kept)
    requires Consistent(env, config, validators, k.tree.headers, k.states, k.tree.nodes, k.tree.justified)
    requires TreeOk(k.tree.nodes, k.tree.root) && StoredOk(k.tree.nodes, k.tree.root, k.tree.headers, anchor)
    requires Handled(env, k, block, signaturesOk, r, k') && CachedOrLost(env, k.tree)
    requires JustifiedOk(k'.tree.nodes, k'.tree.justified, k'.tree.headers) && Within(k'.tree.nodes, k'.tree.headers)
    ensures CachedOrLost(env, k'.tree)
  {
    if IsLost(env, k.tree, k.tree.justified.hash) {
      LostJustifiedStays(env, k, block, signaturesOk, r, k');
    } else if k'.tree.justified.hash !in k'.tree.headers {
      CachedJustifiedStep(env, k, block, signaturesOk, r, k');
      var path := PrunedIsLost(env, config, validators, k, anchor, block, signaturesOk, r, k', k'.tree.justified.hash);
      assert LostAt(env, k'.tree, path, k'.tree.justified.hash);
    }
  }
}
