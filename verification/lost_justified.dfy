/**
 * An input on which the justified block of the tree stops following the chain for good: one fork justifies
 * slot 1, another fork from genesis then finalizes slot 2.
 */
module LostJustified {
  import opened Types
  import opened StateTransition
  import opened Chains
  import opened AggregationBits
  import R = Refinement
  import L = Ledgers
  import opened Forests
  import opened CachedTrees
  import opened BlockTrees
  import opened BlockImports

  /** Values that follow each other, step by step. */
  ghost predicate IsRun<K(!new), B(!new)>(step: (K, B, K) -> bool, ks: seq<K>, bs: seq<B>) {
    |ks| == |bs| + 1 && forall i {:trigger bs[i]} | 0 <= i < |bs| :: step(ks[i], bs[i], ks[i + 1])
  }

  /** If every step has one outcome, so has every run. */
  lemma {:induction false} RunOnce<K(!new), B(!new)>(step: (K, B, K) -> bool, ks: seq<K>, ks': seq<K>, bs: seq<B>, i: nat)
    requires forall k, b, k1, k2 :: step(k, b, k1) && step(k, b, k2) ==> k1 == k2
    requires IsRun(step, ks, bs) && IsRun(step, ks', bs) && ks[0] == ks'[0] && i <= |bs|
    ensures ks[i] == ks'[i]
  {
    if i > 0 {
      RunOnce(step, ks, ks', bs, i - 1);
      var b := bs[i - 1];
      assert step(ks[i - 1], b, ks[i]) && step(ks'[i - 1], b, ks'[i]);
    }
  }

  lemma TwoSteps<K(!new), B(!new)>(step: (K, B, K) -> bool, k0: K, b1: B, k1: K, b2: B, k2: K)
    requires step(k0, b1, k1) && step(k1, b2, k2)
    ensures IsRun(step, [k0, k1, k2], [b1, b2])
  {
  }

  lemma JoinRuns<K(!new), B(!new)>(step: (K, B, K) -> bool, ks: seq<K>, bs: seq<B>, ks': seq<K>, bs': seq<B>)
    requires IsRun(step, ks, bs) && IsRun(step, ks', bs') && ks[|bs|] == ks'[0]
    ensures IsRun(step, ks + ks'[1..], bs + bs')
  {
    var all, blocks := ks + ks'[1..], bs + bs';
    forall i | 0 <= i < |blocks| ensures step(all[i], blocks[i], all[i + 1]) {
      if i < |bs| { assert blocks[i] == bs[i]; } else { assert blocks[i] == bs'[i - |bs|]; }
    }
  }

  /** Each block is imported on top of what the blocks before it left. */
  ghost function Imports(env: Env): (Kept, Block, Kept) -> bool {
    (k: Kept, block: Block, k': Kept) => Handled(env, k, block, true, Imported, k')
  }

  /** What a block does is determined, and so is what a sequence of blocks does. */
  lemma ImportsOnce(env: Env, k: Kept, block: Block, k1: Kept, k2: Kept)
    requires Imports(env)(k, block, k1) && Imports(env)(k, block, k2)
    ensures k1 == k2
  {
  }

  lemma BlocksDetermineRun(env: Env, ks: seq<Kept>, ks': seq<Kept>, blocks: seq<Block>, i: nat)
    requires IsRun(Imports(env), ks, blocks) && IsRun(Imports(env), ks', blocks) && ks[0] == ks'[0] && i <= |blocks|
    ensures ks[i] == ks'[i]
  {
    forall k, b, k1, k2 | Imports(env)(k, b, k1) && Imports(env)(k, b, k2) ensures k1 == k2 {
      ImportsOnce(env, k, b, k1, k2);
    }
    RunOnce(Imports(env), ks, ks', blocks, i);
  }

  // ----- one block on a tree where everything stored is cached

  ghost predicate AllCached(k: Kept) {
    TreeOk(k.tree.nodes, k.tree.root) && k.tree.nodes == k.tree.headers && k.states.Keys == k.tree.nodes.Keys
  }

  /** The block fits on top of what is cached. */
  ghost predicate FitsOn(env: Env, k: Kept, block: Block, post: State) {
    && AllCached(k) && BlockRoot(env, block) !in k.states && block.parentRoot in k.states
    && k.tree.nodes[block.parentRoot].slot < block.slot
    && TransitionOutcome(env, block, k.states[block.parentRoot], true) == Ok(post)
  }

  ghost function Grown(env: Env, k: Kept, block: Block, post: State): Kept {
    WithBlock(k, BlockRoot(env, block), Node(block.slot, Some(block.parentRoot)), post)
  }

  lemma GrownTree(f: Forest, root: Root, hash: Root, slot: nat, parent: Root)
    requires TreeOk(f, root) && hash !in f && parent in f && f[parent].slot < slot
    ensures var f' := f[hash := Node(slot, Some(parent))]; TreeOk(f', root) && Within(f, f')
  {
    var f' := f[hash := Node(slot, Some(parent))];
    assert forall b | b in f && b != root :: HasParent(f, b) && HasParent(f', b);
  }

  lemma GrownIsCached(env: Env, k: Kept, block: Block, post: State)
    requires FitsOn(env, k, block, post)
    ensures AllCached(Grown(env, k, block, post)) && Within(k.tree.nodes, Grown(env, k, block, post).tree.nodes)
  {
    GrownTree(k.tree.nodes, k.tree.root, BlockRoot(env, block), block.slot, block.parentRoot);
  }

  /** A block whose state justifies nothing new only grows the tree. */
  lemma GrowsQuietly(env: Env, k: Kept, block: Block, post: State)
    requires FitsOn(env, k, block, post)
    requires post.justified.slot <= k.tree.justified.slot && post.finalized.slot == 0
    ensures Handled(env, k, block, true, Imported, Grown(env, k, block, post))
  {
    GrownIsCached(env, k, block, post);
  }

  /** A block whose state justifies a child of the justified block moves that one too. */
  lemma GrowsAndJustifies(env: Env, k: Kept, block: Block, post: State) returns (k': Kept)
    requires FitsOn(env, k, block, post) && post.finalized.slot == 0 && block.parentRoot == post.justified.root
    requires k.tree.justified.slot < post.justified.slot && k.tree.justified.hash in k.tree.nodes
    requires k.tree.nodes[k.tree.justified.hash].slot == k.tree.justified.slot
    requires IsChild(k.tree.nodes, k.tree.justified.hash, post.justified.root)
    ensures Handled(env, k, block, true, Imported, k') && AllCached(k')
    ensures var g := Grown(env, k, block, post);
            k' == g.(tree := g.tree.(justified := BlockIndex(post.justified.slot, post.justified.root)))
  {
    GrownIsCached(env, k, block, post);
    var g := Grown(env, k, block, post);
    assert IsAncestor(g.tree.nodes, k.tree.justified.hash, k.tree.justified.hash);
    assert HasParent(g.tree.nodes, post.justified.root);
    k' := g.(tree := g.tree.(justified := BlockIndex(post.justified.slot, post.justified.root)));
  }

  /** Of two children of the root, finalizing one cuts the other off. */
  lemma SiblingIsCut(f: Forest, root: Root, x: Root, fin: Root)
    requires TreeOk(f, root) && IsChild(f, root, x) && IsChild(f, root, fin) && x != fin
    ensures x in Side(f, fin) && !IsAncestor(f, x, fin)
  {
    assert HasParent(f, x) && HasParent(f, fin) && !HasParent(f, root);
    assert !IsAncestor(f, x, root) && !IsAncestor(f, fin, root);
  }

  /** A block whose state finalizes a sibling of the justified block loses that one. */
  lemma GrowsAndPrunes(env: Env, k: Kept, block: Block, post: State) returns (k': Kept)
    requires FitsOn(env, k, block, post) && k.tree.nodes[k.tree.root] == Node(0, None)
    requires IsChild(k.tree.nodes, k.tree.root, k.tree.justified.hash)
    requires IsChild(k.tree.nodes, k.tree.root, post.finalized.root) && post.finalized.root != k.tree.justified.hash
    requires IsChild(k.tree.nodes, post.finalized.root, post.justified.root) && post.finalized.slot > 0
    requires IsAncestor(k.tree.nodes, post.finalized.root, block.parentRoot)
    ensures Handled(env, k, block, true, Imported, k')
    ensures k'.tree.justified == k.tree.justified && k'.tree.justified.hash !in k'.tree.headers
    ensures k'.tree.root == post.finalized.root
  {
    GrownIsCached(env, k, block, post);
    var g := Grown(env, k, block, post);
    var f, jus, fin := g.tree.nodes, k.tree.justified.hash, post.finalized.root;
    SiblingIsCut(f, k.tree.root, jus, fin);
    assert HasParent(f, post.justified.root) && Parent(f, post.justified.root) == fin;
    var s := Snapshot(Subtree(f, fin), fin, f - Side(f, fin), k.tree.justified);
    k' := Kept(g.states - (g.tree.headers.Keys - s.headers.Keys), s);
    AncestorWithin(k.tree.nodes, f, fin, block.parentRoot);
    assert HasParent(f, BlockRoot(env, block));
  }

  // ----- the two forks

  ghost function GenesisOf(env: Env, config: nat, key: nat): Block {
    GenesisBlock(env, GenesisState(env, config, [key]))
  }

  /** Fork A: a block at slot 1, and one at slot 2 whose vote justifies it. */
  lemma ForkA(env: Env, config: nat, key: nat) returns (a1: Block, s1: State, a2: Block, s2: State)
    requires R.CollisionFree(env) && NonZeroStates(env) && NonZeroHeaders(env)
    ensures QuietStep(env, GenesisOf(env, config, key), GenesisState(env, config, [key]), a1, 1, s1)
    ensures TransitionOutcome(env, a2, s1, true) == Ok(s2) && a2.slot == 2 && a2.parentRoot == BlockRoot(env, a1)
    ensures s2.justified == Checkpoint(BlockRoot(env, a1), 1) && s2.finalized.slot == 0
  {
    var s0 := GenesisState(env, config, [key]);
    GenesisIsQuiet(env, config, [key]);
    a1, s1 := QuietBlock(env, config, [key], [], s0, 1);
    assert [] + [a1] == [a1];
    FirstHistory(env, config, key, a1, s1);
    var h := ExtendedLedger(env, config, [key], [a1], 2);
    var v := L.Between(h, 0, 1);
    L.FirstIsJustified(env.build.Debug?, h);
    LoneVoteOf(v);
    a2, s2 := NextBlock(env, config, [key], [a1], s1, 2, [LoneAttestation(v.source, v.target)]);
    R.RunRefinesLedger(env, config, [key], [a1] + [a2]);
  }

  lemma FirstHistory(env: Env, config: nat, key: nat, a1: Block, s1: State)
    requires NonZeroStates(env) && NonZeroHeaders(env) && QuietChain(env, config, [key], [a1], s1) && s1.slot == 1
    requires R.LedgerOf(env, 1, [a1]) == Some(L.Extend(L.Genesis(), BlockRoot(env, GenesisOf(env, config, key)), 1))
    ensures var h := ExtendedLedger(env, config, [key], [a1], 2);
            && h.history == [BlockRoot(env, GenesisOf(env, config, key)), BlockRoot(env, a1)] && h.log == []
            && h.finalized == Checkpoint(h.history[0], 0) && L.NoRepeats(h.history)
            && h.history[0] != ZERO_ROOT && h.history[1] != ZERO_ROOT
  {
    var l := R.LedgerOf(env, 1, [a1]).value;
    L.ExtendHistory(L.Genesis(), BlockRoot(env, GenesisOf(env, config, key)), 1);
    L.ExtendHistory(l, BlockRoot(env, a1), 2);
    HeadIsFresh(env, config, [key], [a1], s1);
    R.RunRefinesLedger(env, config, [key], [a1]);
  }

  /** Fork B: blocks at slots 2, 3 and 4, and one at slot 5 whose votes finalize slot 2. */
  lemma ForkB(env: Env, config: nat, key: nat)
    returns (b2: Block, s2: State, b3: Block, s3: State, b4: Block, s4: State, b5: Block, s5: State)
    requires R.CollisionFree(env) && NonZeroStates(env) && NonZeroHeaders(env)
    ensures QuietStep(env, GenesisOf(env, config, key), GenesisState(env, config, [key]), b2, 2, s2)
    ensures QuietStep(env, b2, s2, b3, 3, s3) && QuietStep(env, b3, s3, b4, 4, s4)
    ensures TransitionOutcome(env, b5, s4, true) == Ok(s5) && b5.slot == 5 && b5.parentRoot == BlockRoot(env, b4)
    ensures s5.justified == Checkpoint(BlockRoot(env, b3), 3) && s5.finalized == Checkpoint(BlockRoot(env, b2), 2)
  {
    b2, s2, b3, s3, b4, s4 := ThreeQuietSteps(env, config, key);
    var h := ExtendedLedger(env, config, [key], [b2, b3, b4], 5);
    var v, w := L.Between(h, 0, 2), L.Between(h, 2, 3);
    L.TwoVotesFinalize(env.build.Debug?, h);
    TwoVotesOf(v, w);
    b5, s5 := NextBlock(env, config, [key], [b2, b3, b4], s4, 5,
                        [LoneAttestation(v.source, v.target), LoneAttestation(w.source, w.target)]);
    R.RunRefinesLedger(env, config, [key], [b2, b3, b4] + [b5]);
  }

  lemma TwoVotesOf(v: L.Vote, w: L.Vote)
    requires v.voters == w.voters == {0}
    ensures R.VotesOf([LoneAttestation(v.source, v.target), LoneAttestation(w.source, w.target)]) == [v, w]
  {
    assert Voters([true]) == {0};
  }

  /** Blocks with different slots or parents have different hashes. */
  lemma DifferentHashes(env: Env, a: Block, b: Block)
    requires R.CollisionFree(env) && (a.slot != b.slot || a.parentRoot != b.parentRoot)
    ensures BlockRoot(env, a) != BlockRoot(env, b)
  {
    if BlockRoot(env, a) == BlockRoot(env, b) {
      assert R.Collide(env, GetHeader(env, a), GetHeader(env, b));
    }
  }

  // ----- the run

  /** What fork B grows on, and keeps: the root, the justified block next to it, and the states it needs. */
  ghost predicate Base(k: Kept, g: Root, x: Root, stored: set<Root>) {
    && AllCached(k) && k.tree.root == g && g in k.tree.nodes && k.tree.nodes[g] == Node(0, None)
    && x in k.tree.nodes && k.tree.nodes[x] == Node(1, Some(g)) && k.tree.justified == BlockIndex(1, x)
    && k.tree.nodes.Keys == stored
  }

  ghost predicate AfterForkA(env: Env, config: nat, key: nat, a1: Block, a2: Block, k: Kept) {
    var g, x := BlockRoot(env, GenesisOf(env, config, key)), BlockRoot(env, a1);
    && a1.slot == 1 && a2.slot == 2 && a2.parentRoot == x
    && Base(k, g, x, {g, x, BlockRoot(env, a2)}) && k.states[g] == GenesisState(env, config, [key])
  }

  lemma AfterFirst(env: Env, config: nat, key: nat, a1: Block, s1: State) returns (k1: Kept)
    requires R.CollisionFree(env)
    requires QuietStep(env, GenesisOf(env, config, key), GenesisState(env, config, [key]), a1, 1, s1)
    ensures Imports(env)(GenesisKept(env, config, [key]), a1, k1) && AllCached(k1)
    ensures var g, x := BlockRoot(env, GenesisOf(env, config, key)), BlockRoot(env, a1);
            && g != x && k1.states == map[g := GenesisState(env, config, [key]), x := s1]
            && k1.tree.nodes == map[g := Node(0, None), x := Node(1, Some(g))]
            && k1.tree.root == g && k1.tree.justified == BlockIndex(0, g)
  {
    DifferentHashes(env, a1, GenesisOf(env, config, key));
    var k0 := GenesisKept(env, config, [key]);
    GrowsQuietly(env, k0, a1, s1);
    GrownIsCached(env, k0, a1, s1);
    k1 := Grown(env, k0, a1, s1);
  }

  /** After fork A: the block at slot 1 is the justified one. */
  lemma AfterA(env: Env, config: nat, key: nat, a1: Block, s1: State, a2: Block, s2: State) returns (k1: Kept, k2: Kept)
    requires R.CollisionFree(env)
    requires QuietStep(env, GenesisOf(env, config, key), GenesisState(env, config, [key]), a1, 1, s1)
    requires TransitionOutcome(env, a2, s1, true) == Ok(s2) && a2.slot == 2 && a2.parentRoot == BlockRoot(env, a1)
    requires s2.justified == Checkpoint(BlockRoot(env, a1), 1) && s2.finalized.slot == 0
    ensures Imports(env)(GenesisKept(env, config, [key]), a1, k1)
    ensures Imports(env)(k1, a2, k2)
    ensures AfterForkA(env, config, key, a1, a2, k2)
  {
    DifferentHashes(env, a2, GenesisOf(env, config, key));
    DifferentHashes(env, a1, a2);
    k1 := AfterFirst(env, config, key, a1, s1);
    k2 := GrowsAndJustifies(env, k1, a2, s2);
  }

  /** One quiet block of fork B. */
  lemma OneMore(env: Env, k: Kept, g: Root, x: Root, stored: set<Root>, parent: Block, s: State, block: Block, slot: nat,
                post: State) returns (k': Kept)
    requires Base(k, g, x, stored) && QuietStep(env, parent, s, block, slot, post)
    requires BlockRoot(env, parent) in k.tree.nodes && k.tree.nodes[BlockRoot(env, parent)].slot < slot
    requires k.states[BlockRoot(env, parent)] == s && BlockRoot(env, block) !in stored
    ensures Imports(env)(k, block, k') && Base(k', g, x, stored + {BlockRoot(env, block)})
    ensures k' == Grown(env, k, block, post)
  {
    GrowsQuietly(env, k, block, post);
    GrownIsCached(env, k, block, post);
    k' := Grown(env, k, block, post);
  }

  /**
   * With one validator, six blocks from genesis after which the justified block of the tree, at slot 1, is gone from
   * the database, while the last state justifies slot 3 and finalizes slot 2.
   */
  lemma JustifiedIsLost(env: Env, config: nat, key: nat) returns (blocks: seq<Block>, ks: seq<Kept>)
    requires R.CollisionFree(env) && NonZeroStates(env) && NonZeroHeaders(env)
    ensures |blocks| == 6 && IsRun(Imports(env), ks, blocks) && ks[0] == GenesisKept(env, config, [key])
    ensures ks[6].tree.justified.slot == 1 && ks[6].tree.justified.hash !in ks[6].tree.headers
    ensures ks[6].tree.root == BlockRoot(env, blocks[2]) && blocks[2].slot == 2
  {
    var k0 := GenesisKept(env, config, [key]);
    var a1, a2, k1, k2 := RunA(env, config, key);
    var b2, b3, b4, b5, k3, k4, k5, k6 := RunB(env, config, key, a1, a2, k2);
    JoinRuns(Imports(env), [k0, k1, k2], [a1, a2], [k2, k3, k4], [b2, b3]);
    JoinRuns(Imports(env), [k0, k1, k2] + [k3, k4], [a1, a2] + [b2, b3], [k4, k5, k6], [b4, b5]);
    blocks, ks := [a1, a2] + [b2, b3] + [b4, b5], [k0, k1, k2] + [k3, k4] + [k5, k6];
  }

  lemma RunA(env: Env, config: nat, key: nat) returns (a1: Block, a2: Block, k1: Kept, k2: Kept)
    requires R.CollisionFree(env) && NonZeroStates(env) && NonZeroHeaders(env)
    ensures IsRun(Imports(env), [GenesisKept(env, config, [key]), k1, k2], [a1, a2])
    ensures AfterForkA(env, config, key, a1, a2, k2)
  {
    var s1, s2;
    a1, s1, a2, s2 := ForkA(env, config, key);
    k1, k2 := AfterA(env, config, key, a1, s1, a2, s2);
    TwoSteps(Imports(env), GenesisKept(env, config, [key]), a1, k1, a2, k2);
  }

  lemma RunB(env: Env, config: nat, key: nat, a1: Block, a2: Block, k2: Kept)
    returns (b2: Block, b3: Block, b4: Block, b5: Block, k3: Kept, k4: Kept, k5: Kept, k6: Kept)
    requires R.CollisionFree(env) && NonZeroStates(env) && NonZeroHeaders(env)
    requires AfterForkA(env, config, key, a1, a2, k2)
    ensures IsRun(Imports(env), [k2, k3, k4], [b2, b3]) && IsRun(Imports(env), [k4, k5, k6], [b4, b5])
    ensures k6.tree.justified == k2.tree.justified && k6.tree.justified.hash !in k6.tree.headers
    ensures k6.tree.root == BlockRoot(env, b2) && b2.slot == 2
  {
    var s2, s3, s4, s5;
    b2, s2, b3, s3, b4, s4, b5, s5 := ForkB(env, config, key);
    k3, k4, k5, k6 := AfterB(env, config, key, a1, a2, k2, b2, s2, b3, s3, b4, s4, b5, s5);
    TwoSteps(Imports(env), k2, b2, k3, b3, k4);
    TwoSteps(Imports(env), k4, b4, k5, b5, k6);
  }

  lemma AfterB(env: Env, config: nat, key: nat, a1: Block, a2: Block, k2: Kept, b2: Block, s2: State, b3: Block,
               s3: State, b4: Block, s4: State, b5: Block, s5: State)
    returns (k3: Kept, k4: Kept, k5: Kept, k6: Kept)
    requires R.CollisionFree(env) && AfterForkA(env, config, key, a1, a2, k2)
    requires QuietStep(env, GenesisOf(env, config, key), GenesisState(env, config, [key]), b2, 2, s2)
    requires QuietStep(env, b2, s2, b3, 3, s3) && QuietStep(env, b3, s3, b4, 4, s4)
    requires TransitionOutcome(env, b5, s4, true) == Ok(s5) && b5.slot == 5 && b5.parentRoot == BlockRoot(env, b4)
    requires s5.justified == Checkpoint(BlockRoot(env, b3), 3) && s5.finalized == Checkpoint(BlockRoot(env, b2), 2)
    ensures Imports(env)(k2, b2, k3) && Imports(env)(k3, b3, k4)
    ensures Imports(env)(k4, b4, k5) && Imports(env)(k5, b5, k6)
    ensures k6.tree.justified == k2.tree.justified && k6.tree.justified.hash !in k6.tree.headers
    ensures k6.tree.root == BlockRoot(env, b2)
  {
    var genesis := GenesisOf(env, config, key);
    var g, x, y, r2, r3, r4 := BlockRoot(env, genesis), BlockRoot(env, a1), BlockRoot(env, a2), BlockRoot(env, b2),
                               BlockRoot(env, b3), BlockRoot(env, b4);
    DifferentFromAll(env, genesis, a1, a2, b2, b3, b4, b5);
    k3 := OneMore(env, k2, g, x, {g, x, y}, genesis, GenesisState(env, config, [key]), b2, 2, s2);
    k4 := OneMore(env, k3, g, x, {g, x, y} + {r2}, b2, s2, b3, 3, s3);
    k5 := OneMore(env, k4, g, x, {g, x, y} + {r2} + {r3}, b3, s3, b4, 4, s4);
    LineOfB(k5.tree.nodes, g, r2, r3, r4);
    k6 := GrowsAndPrunes(env, k5, b5, s5);
  }

  lemma DifferentFromAll(env: Env, g: Block, a1: Block, a2: Block, b2: Block, b3: Block, b4: Block, b5: Block)
    requires R.CollisionFree(env) && g.slot == 0 && a1.slot == 1 && a2.slot == 2 && b2.slot == 2 && b3.slot == 3
    requires b4.slot == 4 && b5.slot == 5 && a2.parentRoot == BlockRoot(env, a1) && b2.parentRoot == BlockRoot(env, g)
    ensures var stored := {BlockRoot(env, g), BlockRoot(env, a1), BlockRoot(env, a2)};
            && BlockRoot(env, b2) !in stored && BlockRoot(env, b3) !in stored + {BlockRoot(env, b2)}
            && BlockRoot(env, b4) !in stored + {BlockRoot(env, b2)} + {BlockRoot(env, b3)}
            && BlockRoot(env, b5) !in stored + {BlockRoot(env, b2)} + {BlockRoot(env, b3)} + {BlockRoot(env, b4)}
  {
    DifferentHashes(env, a1, g);
    forall a, b | a in {g, a1, a2, b2, b3, b4} && b in {b2, b3, b4, b5} && (a.slot != b.slot || (a == a2 && b == b2))
      ensures BlockRoot(env, a) != BlockRoot(env, b)
    {
      DifferentHashes(env, a, b);
    }
  }

  /** Fork B seen in the tree. */
  lemma LineOfB(f: Forest, g: Root, r2: Root, r3: Root, r4: Root)
    requires WellFormed(f) && g in f && r2 in f && r3 in f && r4 in f
    requires f[r2] == Node(2, Some(g)) && f[r3] == Node(3, Some(r2)) && f[r4] == Node(4, Some(r3))
    ensures IsChild(f, g, r2) && IsChild(f, r2, r3) && IsAncestor(f, r2, r4)
  {
    assert IsAncestor(f, r2, r2) && HasParent(f, r3) && HasParent(f, r4);
    assert IsAncestor(f, r2, r3);
  }
}
