/**
 * Importing blocks: the state transition, the block tree and the checkpoints together, as `onBlock`
 * runs them. The invariant ties every stored block to its chain from genesis and to the state that the
 * transition function reached on it, so what each part asks of the others is shown to hold on every run.
 */
module BlockImports {
  import opened Types
  import opened StateTransition
  import opened Chains
  import R = Refinement
  import opened Forests
  import opened CachedTrees
  import opened BlockTrees

  /** What the hash functions are taken to be. */
  ghost predicate EnvOk(env: Env, validators: seq<nat>) {
    R.CollisionFree(env) && NonZeroStates(env) && |validators| > 0
  }

  // ----- stored blocks and their chains

  ghost function Front(blocks: seq<Block>): seq<Block>
    requires blocks != []
  {
    blocks[..|blocks| - 1]
  }

  /** `b` is the hash of the last block of its chain, and its parent has the chain without it. */
  ghost predicate ChainLinked(env: Env, config: nat, validators: seq<nat>, h: Forest, chains: map<Root, seq<Block>>,
                              b: Root)
    requires b in h && b in chains
  {
    && b == BlockRoot(env, HeadBlock(env, config, validators, chains[b]))
    && if chains[b] == [] then h[b].parent == None
       else h[b].parent.Some? && h[b].parent.value in chains && chains[h[b].parent.value] == Front(chains[b])
  }

  /** The state stored for `b` is the one that the transition function reached on its chain. */
  ghost predicate StateReached(env: Env, config: nat, validators: seq<nat>, h: Forest, states: map<Root, State>,
                               chains: map<Root, seq<Block>>, b: Root)
    requires b in h && b in states && b in chains
  {
    Reached(env, config, validators, chains[b], states[b]) && h[b].slot == states[b].slot
  }

  ghost predicate LinksOk(env: Env, config: nat, validators: seq<nat>, h: Forest, chains: map<Root, seq<Block>>) {
    chains.Keys == h.Keys
    && forall b {:trigger ChainLinked(env, config, validators, h, chains, b)} | b in h ::
         ChainLinked(env, config, validators, h, chains, b)
  }

  ghost predicate StatesOk(env: Env, config: nat, validators: seq<nat>, h: Forest, states: map<Root, State>,
                           chains: map<Root, seq<Block>>) {
    && states.Keys == h.Keys && chains.Keys == h.Keys
    && forall b {:trigger StateReached(env, config, validators, h, states, chains, b)} | b in h ::
         StateReached(env, config, validators, h, states, chains, b)
  }

  ghost predicate ChainsOk(env: Env, config: nat, validators: seq<nat>, h: Forest, states: map<Root, State>,
                           chains: map<Root, seq<Block>>) {
    LinksOk(env, config, validators, h, chains) && StatesOk(env, config, validators, h, states, chains)
  }

  /** Every prefix of the chain of a stored block ends in a stored ancestor of it. */
  lemma {:induction false} PrefixIsAncestor(env: Env, config: nat, validators: seq<nat>, h: Forest,
                                            chains: map<Root, seq<Block>>, b: Root, j: nat)
    requires WellFormed(h) && LinksOk(env, config, validators, h, chains) && b in h && j <= |chains[b]|
    ensures var x := BlockRoot(env, HeadBlock(env, config, validators, chains[b][..j]));
            IsAncestor(h, x, b) && x in h && chains[x] == chains[b][..j]
    decreases |chains[b]|
  {
    assert ChainLinked(env, config, validators, h, chains, b);
    if j == |chains[b]| {
      assert chains[b][..j] == chains[b];
    } else {
      var p := h[b].parent.value;
      assert HasParent(h, b) && Parent(h, b) == p;
      assert chains[p][..j] == chains[b][..j];
      PrefixIsAncestor(env, config, validators, h, chains, p, j);
    }
  }

  /** A root recorded in the history is the hash of a block of the chain, at its slot. */
  lemma {:induction false} HistoryEntry(env: Env, config: nat, validators: seq<nat>, blocks: seq<Block>, s: State, k: nat)
    returns (j: nat)
    requires NonZeroStates(env) && Reached(env, config, validators, blocks, s)
    requires k < |s.history| && (k == 0 || s.history[k] != ZERO_ROOT)
    ensures j < |blocks| && HeadBlock(env, config, validators, blocks[..j]).slot == k
    ensures s.history[k] == BlockRoot(env, HeadBlock(env, config, validators, blocks[..j]))
  {
    if blocks == [] {
      HistoryIsTheChain(env, config, validators, blocks, s);
    } else {
      var mid := HistoryAt(env, config, validators, blocks, s, k);
      if k < |mid.history| && mid.history[k] == s.history[k] {
        j := HistoryEntry(env, config, validators, Front(blocks), mid, k);
        assert Front(blocks)[..j] == blocks[..j];
      } else {
        j := |blocks| - 1;
      }
    }
  }

  /** A checkpoint of a stored block's state that names a block of its chain. */
  lemma CheckpointIsStored(env: Env, config: nat, validators: seq<nat>, h: Forest, states: map<Root, State>,
                           chains: map<Root, seq<Block>>, b: Root, c: Checkpoint)
    requires EnvOk(env, validators) && WellFormed(h) && ChainsOk(env, config, validators, h, states, chains) && b in h
    requires c.slot < |states[b].history| && states[b].history[c.slot] == c.root && (c.slot == 0 || c.root != ZERO_ROOT)
    ensures IsAncestor(h, c.root, b) && c.root in h && h[c.root].slot == c.slot
  {
    assert StateReached(env, config, validators, h, states, chains, b);
    var j := HistoryEntry(env, config, validators, chains[b], states[b], c.slot);
    PrefixIsAncestor(env, config, validators, h, chains, b, j);
    assert StateReached(env, config, validators, h, states, chains, c.root);
    HeadSlot(env, config, validators, chains[c.root], states[c.root]);
  }

  /** The finalized block of a state is a stored ancestor-or-self of its justified block. */
  lemma CheckpointsAreStored(env: Env, config: nat, validators: seq<nat>, h: Forest, states: map<Root, State>,
                             chains: map<Root, seq<Block>>, b: Root)
    requires EnvOk(env, validators) && WellFormed(h) && ChainsOk(env, config, validators, h, states, chains)
    requires b in h && states[b].slot > 0
    ensures var j, f := states[b].justified, states[b].finalized;
            && j.root in h && h[j.root].slot == j.slot && f.root in h && h[f.root].slot == f.slot
            && IsAncestor(h, f.root, j.root) && IsAncestor(h, f.root, b)
  {
    assert StateReached(env, config, validators, h, states, chains, b);
    var s, chain := states[b], chains[b];
    assert chain != [];
    CheckpointsOnChain(env, config, validators, chain, s);
    if s.justified.slot > 0 { JustifiedRootIsABlock(env, config, validators, chain, s); }
    if s.finalized.slot > 0 { var vote := FinalizedHasAJustifiedSuccessor(env, config, validators, chain, s); }
    CheckpointIsStored(env, config, validators, h, states, chains, b, s.justified);
    CheckpointIsStored(env, config, validators, h, states, chains, b, s.finalized);
    AncestorsComparable(h, s.finalized.root, s.justified.root, b);
    if IsAncestor(h, s.justified.root, s.finalized.root) { AncestorSlot(h, s.justified.root, s.finalized.root); }
  }

  // ----- the importer

  datatype ImportResult =
    | Imported
    | Known
    | StateNotFound
    | InvalidSignatures
    | Refused(error: Error)
    | TreeFailure(result: TreeResult)

  /** What is said of `b` depends on the entries of `b` and of its parent alone. */
  lemma LinkFrame(env: Env, config: nat, validators: seq<nat>, h: Forest, chains: map<Root, seq<Block>>,
                  h': Forest, chains': map<Root, seq<Block>>, b: Root)
    requires b in h && b in chains && ChainLinked(env, config, validators, h, chains, b)
    requires b in h' && b in chains' && h'[b] == h[b] && chains'[b] == chains[b]
    requires h[b].parent.Some? && h[b].parent.value in chains ==>
               h[b].parent.value in chains' && chains'[h[b].parent.value] == chains[h[b].parent.value]
    ensures ChainLinked(env, config, validators, h', chains', b)
  {
  }

  lemma StateFrame(env: Env, config: nat, validators: seq<nat>, h: Forest, states: map<Root, State>,
                   chains: map<Root, seq<Block>>, h': Forest, states': map<Root, State>,
                   chains': map<Root, seq<Block>>, b: Root)
    requires b in h && b in states && b in chains && StateReached(env, config, validators, h, states, chains, b)
    requires b in h' && b in states' && b in chains'
    requires h'[b] == h[b] && states'[b] == states[b] && chains'[b] == chains[b]
    ensures StateReached(env, config, validators, h', states', chains', b)
  {
  }

  /** Dropping stored blocks together with their states and chains. */
  lemma ChainsDrop(env: Env, config: nat, validators: seq<nat>, h: Forest, anchor: Root, states: map<Root, State>,
                   chains: map<Root, seq<Block>>, gone: set<Root>)
    requires TreeOk(h, anchor) && TreeOk(h - gone, anchor)
    requires ChainsOk(env, config, validators, h, states, chains)
    ensures ChainsOk(env, config, validators, h - gone, states - gone, chains - gone)
  {
    var h' := h - gone;
    forall b | b in h'
      ensures ChainLinked(env, config, validators, h', chains - gone, b)
      ensures StateReached(env, config, validators, h', states - gone, chains - gone, b)
    {
      assert b != anchor ==> HasParent(h', b);
      LinkFrame(env, config, validators, h, chains, h', chains - gone, b);
      StateFrame(env, config, validators, h, states, chains, h', states - gone, chains - gone, b);
    }
  }

  /** The chain and state of an accepted block on top of a stored one. */
  lemma AcceptedIsReached(env: Env, config: nat, validators: seq<nat>, blocks: seq<Block>, s: State, block: Block,
                          post: State)
    requires Reached(env, config, validators, blocks, s) && TransitionOutcome(env, block, s, true) == Ok(post)
    ensures Reached(env, config, validators, blocks + [block], post) && post.slot == block.slot && s.slot < block.slot
    ensures HeadBlock(env, config, validators, blocks + [block]) == block && Front(blocks + [block]) == blocks
  {
    assert (blocks + [block])[..|blocks|] == blocks;
    TransitionFrame(env, block, s, post);
  }

  lemma LinkAdd(env: Env, config: nat, validators: seq<nat>, h: Forest, chains: map<Root, seq<Block>>, block: Block,
                hash: Root, b: Root)
    requires chains.Keys == h.Keys && block.parentRoot in h && hash == BlockRoot(env, block) && hash !in h
    requires b == hash || (b in h && ChainLinked(env, config, validators, h, chains, b))
    ensures ChainLinked(env, config, validators, h[hash := Node(block.slot, Some(block.parentRoot))],
                        chains[hash := chains[block.parentRoot] + [block]], b)
  {
    var p := block.parentRoot;
    if b == hash {
      assert Front(chains[p] + [block]) == chains[p];
    } else {
      LinkFrame(env, config, validators, h, chains, h[hash := Node(block.slot, Some(p))],
                chains[hash := chains[p] + [block]], b);
    }
  }

  lemma StateAdd(env: Env, config: nat, validators: seq<nat>, h: Forest, states: map<Root, State>,
                 chains: map<Root, seq<Block>>, hash: Root, node: Node, chain: seq<Block>, post: State, b: Root)
    requires states.Keys == h.Keys && chains.Keys == h.Keys && hash !in h && (b in h || b == hash)
    requires b in h ==> StateReached(env, config, validators, h, states, chains, b)
    requires Reached(env, config, validators, chain, post) && node.slot == post.slot
    ensures StateReached(env, config, validators, h[hash := node], states[hash := post], chains[hash := chain], b)
  {
  }

  lemma StatesAdd(env: Env, config: nat, validators: seq<nat>, h: Forest, states: map<Root, State>,
                  chains: map<Root, seq<Block>>, hash: Root, node: Node, chain: seq<Block>, post: State)
    requires StatesOk(env, config, validators, h, states, chains) && hash !in h
    requires Reached(env, config, validators, chain, post) && node.slot == post.slot
    ensures StatesOk(env, config, validators, h[hash := node], states[hash := post], chains[hash := chain])
  {
    var h', states', chains' := h[hash := node], states[hash := post], chains[hash := chain];
    forall b | b in h' ensures StateReached(env, config, validators, h', states', chains', b) {
      StateAdd(env, config, validators, h, states, chains, hash, node, chain, post, b);
    }
  }

  lemma LinksAdd(env: Env, config: nat, validators: seq<nat>, h: Forest, chains: map<Root, seq<Block>>, block: Block,
                 hash: Root)
    requires LinksOk(env, config, validators, h, chains) && block.parentRoot in h
    requires hash == BlockRoot(env, block) && hash !in h
    ensures LinksOk(env, config, validators, h[hash := Node(block.slot, Some(block.parentRoot))],
                    chains[hash := chains[block.parentRoot] + [block]])
  {
    var h' := h[hash := Node(block.slot, Some(block.parentRoot))];
    var chains' := chains[hash := chains[block.parentRoot] + [block]];
    forall b | b in h' ensures ChainLinked(env, config, validators, h', chains', b) {
      LinkAdd(env, config, validators, h, chains, block, hash, b);
    }
  }

  /** Storing an accepted block under its parent. */
  lemma ChainsAdd(env: Env, config: nat, validators: seq<nat>, h: Forest, states: map<Root, State>,
                  chains: map<Root, seq<Block>>, block: Block, post: State, hash: Root)
    requires ChainsOk(env, config, validators, h, states, chains) && block.parentRoot in h
    requires Reached(env, config, validators, chains[block.parentRoot] + [block], post) && post.slot == block.slot
    requires hash == BlockRoot(env, block) && hash !in h
    ensures ChainsOk(env, config, validators, h[hash := Node(block.slot, Some(block.parentRoot))],
                     states[hash := post], chains[hash := chains[block.parentRoot] + [block]])
  {
    LinksAdd(env, config, validators, h, chains, block, hash);
    StatesAdd(env, config, validators, h, states, chains, hash, Node(block.slot, Some(block.parentRoot)),
              chains[block.parentRoot] + [block], post);
  }

  /** `block` is the one that the tree calls justified. */
  ghost predicate Names(env: Env, block: Block, index: BlockIndex) {
    BlockRoot(env, block) == index.hash && block.slot == index.slot
  }

  /** What ties headers, states and chains to the cached blocks `f` and the justified block. */
  ghost predicate ImportOk(env: Env, config: nat, validators: seq<nat>, h: Forest, states: map<Root, State>,
                           chains: map<Root, seq<Block>>, f: Forest, justified: BlockIndex, named: Block) {
    && EnvOk(env, validators) && ChainsOk(env, config, validators, h, states, chains)
    && Names(env, named, justified) && JustifiedOk(f, justified, h)
  }

  /** The stored blocks have chains from genesis that their states were reached on. */
  ghost predicate Consistent(env: Env, config: nat, validators: seq<nat>, h: Forest, states: map<Root, State>, f: Forest,
                             justified: BlockIndex) {
    exists chains, named :: ImportOk(env, config, validators, h, states, chains, f, justified, named)
  }

  lemma GenesisOk(env: Env, config: nat, validators: seq<nat>)
    requires EnvOk(env, validators)
    ensures var genesis := GenesisState(env, config, validators);
            var block := GenesisBlock(env, genesis);
            var hash := BlockRoot(env, block);
            ImportOk(env, config, validators, map[hash := Node(0, None)], map[hash := genesis], map[hash := []],
                     map[hash := Node(0, None)], BlockIndex(0, hash), block)
  {
  }

  /** The transition function has made sure that the new block is later than its parent. */
  lemma ParentIsEarlier(env: Env, config: nat, validators: seq<nat>, h: Forest, states: map<Root, State>,
                        chains: map<Root, seq<Block>>, block: Block, post: State)
    requires ChainsOk(env, config, validators, h, states, chains) && block.parentRoot in h
    requires TransitionOutcome(env, block, states[block.parentRoot], true) == Ok(post)
    ensures h[block.parentRoot].slot < block.slot == post.slot
    ensures Reached(env, config, validators, chains[block.parentRoot] + [block], post)
  {
    assert StateReached(env, config, validators, h, states, chains, block.parentRoot);
    AcceptedIsReached(env, config, validators, chains[block.parentRoot], states[block.parentRoot], block, post);
  }

  /** A new block that happens to be the one called justified has its slot. */
  lemma JustifiedAfterAdd(env: Env, f: Forest, h: Forest, justified: BlockIndex, named: Block, block: Block, hash: Root)
    requires R.CollisionFree(env) && Names(env, named, justified) && JustifiedOk(f, justified, h)
    requires hash == BlockRoot(env, block) && hash !in h && Within(f, h)
    ensures var node := Node(block.slot, Some(block.parentRoot));
            JustifiedOk(f[hash := node], justified, h[hash := node])
  {
    if hash == justified.hash {
      assert R.Collide(env, GetHeader(env, block), GetHeader(env, named));
    }
  }

  lemma AddedOk(env: Env, config: nat, validators: seq<nat>, h: Forest, states: map<Root, State>,
                chains: map<Root, seq<Block>>, f: Forest, justified: BlockIndex, named: Block, block: Block,
                post: State, hash: Root)
    requires ImportOk(env, config, validators, h, states, chains, f, justified, named) && Within(f, h)
    requires block.parentRoot in h && hash == BlockRoot(env, block) && hash !in h && post.slot == block.slot
    requires Reached(env, config, validators, chains[block.parentRoot] + [block], post)
    ensures var node := Node(block.slot, Some(block.parentRoot));
            Consistent(env, config, validators, h[hash := node], states[hash := post], f[hash := node], justified)
  {
    ChainsAdd(env, config, validators, h, states, chains, block, post, hash);
    JustifiedAfterAdd(env, f, h, justified, named, block, hash);
    var node, chain := Node(block.slot, Some(block.parentRoot)), chains[block.parentRoot] + [block];
    assert ImportOk(env, config, validators, h[hash := node], states[hash := post], chains[hash := chain],
                    f[hash := node], justified, named);
  }

  lemma HeadIsNamed(env: Env, config: nat, validators: seq<nat>, h: Forest, states: map<Root, State>,
                    chains: map<Root, seq<Block>>, b: Root)
    requires ChainsOk(env, config, validators, h, states, chains) && b in h
    ensures Names(env, HeadBlock(env, config, validators, chains[b]), BlockIndex(h[b].slot, b))
  {
    assert StateReached(env, config, validators, h, states, chains, b);
    assert ChainLinked(env, config, validators, h, chains, b);
    HeadSlot(env, config, validators, chains[b], states[b]);
  }

  /** The block called justified after an update to `jus`. */
  ghost function NextNamed(env: Env, config: nat, validators: seq<nat>, chains: map<Root, seq<Block>>, named: Block,
                           before: BlockIndex, after: BlockIndex): Block
  {
    if after == before || after.hash !in chains then named else HeadBlock(env, config, validators, chains[after.hash])
  }

  lemma FollowedOk(env: Env, config: nat, validators: seq<nat>, h: Forest, anchor: Root, states: map<Root, State>,
                   chains: map<Root, seq<Block>>, f: Forest, before: BlockIndex, named: Block, gone: set<Root>,
                   f': Forest, after: BlockIndex)
    requires ImportOk(env, config, validators, h, states, chains, f, before, named)
    requires TreeOk(h, anchor) && TreeOk(h - gone, anchor) && JustifiedOk(f', after, h - gone)
    requires after == before || (after.hash in h && h[after.hash].slot == after.slot)
    ensures Consistent(env, config, validators, h - gone, states - gone, f', after)
  {
    ChainsDrop(env, config, validators, h, anchor, states, chains, gone);
    if after != before {
      HeadIsNamed(env, config, validators, h, states, chains, after.hash);
    }
    assert ImportOk(env, config, validators, h - gone, states - gone, chains - gone, f', after,
                    NextNamed(env, config, validators, chains, named, before, after));
  }

  /** What `AddBlock` asks for, from an accepted transition. */
  lemma AcceptedIsLater(env: Env, config: nat, validators: seq<nat>, h: Forest, states: map<Root, State>, f: Forest,
                        justified: BlockIndex, block: Block, post: State)
    requires Consistent(env, config, validators, h, states, f, justified) && block.parentRoot in states
    requires TransitionOutcome(env, block, states[block.parentRoot], true) == Ok(post)
    ensures states.Keys == h.Keys && h[block.parentRoot].slot < block.slot == post.slot
  {
    var chains, named :| ImportOk(env, config, validators, h, states, chains, f, justified, named);
    ParentIsEarlier(env, config, validators, h, states, chains, block, post);
  }

  lemma AddedConsistent(env: Env, config: nat, validators: seq<nat>, h: Forest, states: map<Root, State>, f: Forest,
                        justified: BlockIndex, block: Block, post: State, hash: Root)
    requires Consistent(env, config, validators, h, states, f, justified) && block.parentRoot in states && Within(f, h)
    requires TransitionOutcome(env, block, states[block.parentRoot], true) == Ok(post)
    requires hash == BlockRoot(env, block) && hash !in h
    ensures var node := Node(block.slot, Some(block.parentRoot));
            Consistent(env, config, validators, h[hash := node], states[hash := post], f[hash := node], justified)
  {
    var chains, named :| ImportOk(env, config, validators, h, states, chains, f, justified, named);
    ParentIsEarlier(env, config, validators, h, states, chains, block, post);
    AddedOk(env, config, validators, h, states, chains, f, justified, named, block, post, hash);
  }

  /** What `UpdateCheckpoints` asks for, from the state of a stored block. */
  lemma CheckpointsConsistent(env: Env, config: nat, validators: seq<nat>, h: Forest, states: map<Root, State>, f: Forest,
                              justified: BlockIndex, b: Root)
    requires Consistent(env, config, validators, h, states, f, justified) && WellFormed(h)
    requires b in states && states[b].slot > 0
    ensures JustifiedOk(f, justified, h) && states.Keys == h.Keys
    ensures var jus, fin := states[b].justified, states[b].finalized;
            && jus.root in h && h[jus.root].slot == jus.slot && fin.root in h && h[fin.root].slot == fin.slot
            && IsAncestor(h, fin.root, jus.root) && IsAncestor(h, fin.root, b)
  {
    var chains, named :| ImportOk(env, config, validators, h, states, chains, f, justified, named);
    CheckpointsAreStored(env, config, validators, h, states, chains, b);
  }

  lemma ConsistentJustified(env: Env, config: nat, validators: seq<nat>, h: Forest, states: map<Root, State>, f: Forest,
                            justified: BlockIndex)
    requires Consistent(env, config, validators, h, states, f, justified)
    ensures JustifiedOk(f, justified, h)
  {
  }

  lemma FollowedConsistent(env: Env, config: nat, validators: seq<nat>, h: Forest, anchor: Root,
                           states: map<Root, State>, f: Forest, before: BlockIndex, gone: set<Root>, f': Forest,
                           after: BlockIndex)
    requires Consistent(env, config, validators, h, states, f, before)
    requires TreeOk(h, anchor) && TreeOk(h - gone, anchor) && JustifiedOk(f', after, h - gone)
    requires after == before || (after.hash in h && h[after.hash].slot == after.slot)
    ensures Consistent(env, config, validators, h - gone, states - gone, f', after)
  {
    var chains, named :| ImportOk(env, config, validators, h, states, chains, f, before, named);
    FollowedOk(env, config, validators, h, anchor, states, chains, f, before, named, gone, f', after);
  }

  /** What is decided about a block before the tree is touched. */
  datatype Ruling = Accepted(post: State) | Dropped(answer: ImportResult)

  ghost function Judgement(env: Env, states: map<Root, State>, block: Block, signaturesOk: bool): Ruling {
    if BlockRoot(env, block) in states then Dropped(Known)
    else if block.parentRoot !in states then Dropped(StateNotFound)
    else if !signaturesOk then Dropped(InvalidSignatures)
    else
      match TransitionOutcome(env, block, states[block.parentRoot], true)
      case Err(error) => Dropped(Refused(error))
      case Ok(post) => Accepted(post)
  }

  /** What importing a block changes. */
  datatype Kept = Kept(states: map<Root, State>, tree: Snapshot)

  ghost function WithBlock(k: Kept, hash: Root, node: Node, post: State): Kept {
    Kept(k.states[hash := post], WithNode(k.tree, hash, node))
  }

  /**
   * What an accepted block does: under a cached parent it is stored with its state and the tree follows
   * the checkpoints of that state, so that the states left are those of the stored blocks.
   */
  ghost predicate Stored(hash: Root, slot: nat, parent: Root, post: State, k: Kept, r: ImportResult, k': Kept) {
    if parent !in k.tree.nodes then r == TreeFailure(NoParent) && k' == k
    else
      var added := WithBlock(k, hash, Node(slot, Some(parent)), post);
      var answer := FollowAnswer(added.tree, post.justified);
      && r == (if answer == Done then Imported else TreeFailure(answer))
      && hash in k'.states && hash in k'.tree.nodes
      && Followed(added.tree, post.justified, post.finalized, answer, k'.tree)
      && k'.states == added.states - (added.tree.headers.Keys - k'.tree.headers.Keys)
  }

  ghost function GenesisKept(env: Env, config: nat, validators: seq<nat>): Kept {
    var genesis := GenesisState(env, config, validators);
    var hash := BlockRoot(env, GenesisBlock(env, genesis));
    var f: Forest := map[hash := Node(0, None)];
    Kept(map[hash := genesis], Snapshot(f, hash, f, BlockIndex(0, hash)))
  }

  /** The whole effect of `onBlock` on states, tree and database. */
  ghost predicate Handled(env: Env, k: Kept, block: Block, signaturesOk: bool, r: ImportResult, k': Kept) {
    match Judgement(env, k.states, block, signaturesOk)
    case Accepted(post) => Stored(BlockRoot(env, block), block.slot, block.parentRoot, post, k, r, k')
    case Dropped(answer) => r == answer && k' == k
  }

  ghost function Answer(env: Env, k: Kept, block: Block, signaturesOk: bool): ImportResult {
    match Judgement(env, k.states, block, signaturesOk)
    case Dropped(answer) => answer
    case Accepted(post) =>
      var added := WithBlock(k, BlockRoot(env, block), Node(block.slot, Some(block.parentRoot)), post);
      if block.parentRoot !in k.tree.nodes then TreeFailure(NoParent)
      else if FollowAnswer(added.tree, post.justified) == Done then Imported
      else TreeFailure(FollowAnswer(added.tree, post.justified))
  }

  lemma AnswerIsExact(env: Env, k: Kept, block: Block, signaturesOk: bool, r: ImportResult, k': Kept)
    requires Handled(env, k, block, signaturesOk, r, k')
    ensures r == Answer(env, k, block, signaturesOk) && (r == Imported ==> signaturesOk)
  {
  }

  class Importer {
    const env: Env
    const config: nat
    const validators: seq<nat>
    const blockTree: BlockTree
    var states: map<Root, State>

    ghost predicate Valid()
      reads this, blockTree, blockTree.tree, blockTree.storage
    {
      && blockTree.Valid()
      && Consistent(env, config, validators, blockTree.storage.headers, states, blockTree.tree.nodes,
                    blockTree.tree.justified)
    }

    ghost function Now(): Kept
      reads this, blockTree, blockTree.tree, blockTree.storage
    {
      Kept(states, blockTree.Now())
    }

    /** A client that knows the genesis block alone. */
    constructor (env: Env, config: nat, validators: seq<nat>)
      requires EnvOk(env, validators)
      ensures Valid() && fresh(blockTree) && fresh(blockTree.tree) && fresh(blockTree.storage)
      ensures this.env == env && this.config == config && this.validators == validators
      ensures Now() == GenesisKept(env, config, validators)
    {
      var genesis := GenesisState(env, config, validators);
      var block := GenesisBlock(env, genesis);
      var hash := BlockRoot(env, block);
      var t := new BlockTree(BlockIndex(0, hash));
      this.env, this.config, this.validators, blockTree := env, config, validators, t;
      states := map[hash := genesis];
      new;
      GenesisOk(env, config, validators);
    }

    /**
     * `onBlock` up to the caches: a known block is ignored; otherwise the block must have a parent state,
     * valid signatures and an accepted transition, and its parent must be in the tree. Then it is stored
     * with its state, and the tree follows the checkpoints of that state.
     */
    method OnBlock(block: Block, signaturesOk: bool) returns (r: ImportResult)
      requires Valid()
      modifies this`states, blockTree.tree, blockTree.storage
      ensures Valid() && Handled(env, old(Now()), block, signaturesOk, r, Now())
    {
      var hash := BlockRoot(env, block);
      if hash in blockTree.storage.headers {
        return Known;
      }
      if block.parentRoot !in states {
        return StateNotFound;
      }
      if !signaturesOk {
        return InvalidSignatures;
      }
      var post := ApplyBlock(env, block, states[block.parentRoot], true);
      if post.Err? {
        return Refused(post.error);
      }
      AcceptedIsLater(env, config, validators, blockTree.storage.headers, states, blockTree.tree.nodes,
                      blockTree.tree.justified, block, post.value);
      AddedConsistent(env, config, validators, blockTree.storage.headers, states, blockTree.tree.nodes,
                      blockTree.tree.justified, block, post.value, hash);
      r := Store(hash, block.slot, block.parentRoot, post.value);
    }

    /**
     * A block that goes with what is stored is stored with its state, and the tree follows its checkpoints.
     * A parent that is not cached is what `AddBlock` refuses.
     */
    method Store(hash: Root, slot: nat, parent: Root, post: State) returns (r: ImportResult)
      requires Valid() && hash !in blockTree.storage.headers
      requires parent in blockTree.storage.headers && blockTree.storage.headers[parent].slot < slot == post.slot
      requires ConsistentAfter(hash, Node(slot, Some(parent)), post)
      modifies this`states, blockTree.tree, blockTree.storage
      ensures Valid() && Stored(hash, slot, parent, post, old(Now()), r, Now())
    {
      if parent !in blockTree.tree.nodes {
        return TreeFailure(NoParent);
      }
      Place(hash, slot, parent, post);
      var done := FollowCheckpoints(hash);
      return if done == Done then Imported else TreeFailure(done);
    }

    ghost predicate ConsistentAfter(hash: Root, node: Node, post: State)
      reads this, blockTree, blockTree.tree, blockTree.storage
    {
      Consistent(env, config, validators, blockTree.storage.headers[hash := node], states[hash := post],
                 blockTree.tree.nodes[hash := node], blockTree.tree.justified)
    }

    method Place(hash: Root, slot: nat, parent: Root, post: State)
      requires Valid() && hash !in blockTree.storage.headers
      requires parent in blockTree.tree.nodes && blockTree.tree.nodes[parent].slot < slot
      requires ConsistentAfter(hash, Node(slot, Some(parent)), post)
      modifies this`states, blockTree.tree, blockTree.storage
      ensures Valid() && Now() == WithBlock(old(Now()), hash, Node(slot, Some(parent)), post)
    {
      blockTree.AddNew(hash, slot, parent);
      SetStates(states[hash := post]);
    }

    /** The states kept are those of the stored blocks. */
    method SetStates(kept: map<Root, State>)
      requires blockTree.Valid()
      requires Consistent(env, config, validators, blockTree.storage.headers, kept, blockTree.tree.nodes,
                          blockTree.tree.justified)
      modifies this`states
      ensures Valid() && states == kept
    {
      states := kept;
    }

    /** The tree follows the checkpoints of the state of a cached block, which stays cached. */
    method FollowCheckpoints(hash: Root) returns (r: TreeResult)
      requires Valid() && hash in blockTree.tree.nodes && hash in states && states[hash].slot > 0
      modifies this`states, blockTree.tree, blockTree.storage
      ensures Valid() && hash in blockTree.tree.nodes && hash in states
      ensures states == old(states) - (old(blockTree.storage.headers.Keys) - blockTree.storage.headers.Keys)
      ensures Followed(old(blockTree.Now()), old(states)[hash].justified, old(states)[hash].finalized, r, blockTree.Now())
    {
      ghost var h, f, before := blockTree.storage.headers, blockTree.tree.nodes, blockTree.tree.justified;
      var stored, post := blockTree.storage.headers.Keys, states[hash];
      CheckpointsConsistent(env, config, validators, h, states, f, before, hash);
      r := blockTree.FollowCheckpoints(hash, post.justified, post.finalized);
      var gone := stored - blockTree.storage.headers.Keys;
      FollowedConsistent(env, config, validators, h, blockTree.anchor, states, f, before, gone,
                         blockTree.tree.nodes, blockTree.tree.justified);
      SetStates(states - gone);
    }
  }
}
