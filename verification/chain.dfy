/** What the refinement gives for every chain of blocks accepted from genesis. */
module Chains {
  import opened Types
  import opened StateTransition
  import opened Refinement
  import W = JustifiedWindow
  import opened AggregationBits
  import O = RootOrder
  import V = VoteTable
  import L = Ledgers

  /** `s` is the state after the accepted chain `blocks`. */
  ghost predicate Reached(env: Env, config: nat, validators: seq<nat>, blocks: seq<Block>, s: State) {
    && CollisionFree(env) && |validators| > 0
    && Run(env, GenesisState(env, config, validators), blocks) == Ok(s)
  }

  /** The validators whose vote for `root` was counted anywhere on the chain. */
  ghost function CountedVoters(env: Env, validators: seq<nat>, blocks: seq<Block>, root: Root): set<nat> {
    match LedgerOf(env, |validators|, blocks)
    case None => {}
    case Some(l) => L.Supporters(l.log, root)
  }

  /** Sizes that make every index computation of the transition function valid. */
  lemma ReachedShape(env: Env, config: nat, validators: seq<nat>, blocks: seq<Block>, s: State)
    requires Reached(env, config, validators, blocks, s)
    ensures |s.history| == s.header.slot && s.slot == s.header.slot
    ensures |s.justifiedSlots| == if blocks == [] then 0 else s.header.slot - 1 - s.finalized.slot
    ensures |s.pendingVotes| == |s.pendingRoots| * |validators| && O.StrictlySorted(s.pendingRoots)
    ensures forall r | r in s.pendingRoots ::
              exists k :: s.finalized.slot < k < |s.history| && s.history[k] == r != ZERO_ROOT
  {
    RunRefinesLedger(env, config, validators, blocks);
    HeadSlot(env, config, validators, blocks, s);
    var n := |validators|;
    var l := LedgerOf(env, n, blocks).value;
    var table := V.Unflatten(s.pendingRoots, s.pendingVotes, n);
    forall r | r in s.pendingRoots
      ensures exists k :: s.finalized.slot < k < |s.history| && s.history[k] == r != ZERO_ROOT
    {
      assert RowOk(n, l, table, r);
      var k := AwaitingSlot(n, l, r);
      assert s.finalized.slot < k < |s.history| && s.history[k] == r != ZERO_ROOT;
    }
  }

  lemma {:induction false} HeadSlot(env: Env, config: nat, validators: seq<nat>, blocks: seq<Block>, s: State)
    requires Run(env, GenesisState(env, config, validators), blocks) == Ok(s)
    ensures s.slot == s.header.slot
    ensures blocks != [] ==> s.slot == blocks[|blocks| - 1].slot > 0
    ensures s.validators == validators && s.config == config
  {
    if blocks != [] {
      var front := blocks[..|blocks| - 1];
      var parent := Run(env, GenesisState(env, config, validators), front).value;
      HeadSlot(env, config, validators, front, parent);
      TransitionFrame(env, blocks[|blocks| - 1], parent, s);
    }
  }

  /** What an accepted block fixes whatever its votes are. */
  lemma TransitionFrame(env: Env, block: Block, parent: State, post: State)
    requires TransitionOutcome(env, block, parent, true) == Ok(post)
    ensures parent.slot < block.slot == post.slot
    ensures post.header == GetHeader(env, block).(stateRoot := ZERO_ROOT)
    ensures block.stateRoot == env.stateRoot(post)
    ensures post.validators == parent.validators && post.config == parent.config
  {
    AdvanceSlotsFrame(env, parent, block.slot);
  }

  /**
   * Exact justification. A slot above finality is justified exactly when the distinct validators in
   * counted votes for its block, over the whole chain, are two thirds; every root still pending holds
   * exactly its counted voters and is strictly below two thirds.
   */
  lemma ExactJustification(env: Env, config: nat, validators: seq<nat>, blocks: seq<Block>, s: State)
    requires Reached(env, config, validators, blocks, s)
    ensures forall k: nat | s.finalized.slot < k < |s.history| ::
              (W.IsSlotJustified(s.justifiedSlots, s.finalized.slot, k) == Some(true))
              <==> (s.history[k] != ZERO_ROOT
                    && 3 * |CountedVoters(env, validators, blocks, s.history[k])| >= 2 * |validators|)
    ensures |s.pendingVotes| == |s.pendingRoots| * |validators|
    ensures var table := V.Unflatten(s.pendingRoots, s.pendingVotes, |validators|);
            forall r | r in s.pendingRoots ::
              && Voters(table[r]) == CountedVoters(env, validators, blocks, r)
              && 3 * |CountedVoters(env, validators, blocks, r)| < 2 * |validators|
  {
    RunRefinesLedger(env, config, validators, blocks);
    var n := |validators|;
    var l := LedgerOf(env, n, blocks).value;
    forall k: nat | s.finalized.slot < k < |s.history|
      ensures (W.IsSlotJustified(s.justifiedSlots, s.finalized.slot, k) == Some(true)) <==> L.IsJustified(n, l, k)
    {
      assert W.Justified(s.justifiedSlots, s.finalized.slot, k) <==> L.IsJustified(n, l, k);
    }
    var table := V.Unflatten(s.pendingRoots, s.pendingVotes, n);
    forall r | r in s.pendingRoots
      ensures Voters(table[r]) == L.Supporters(l.log, r) && 3 * |L.Supporters(l.log, r)| < 2 * n
    {
      assert RowOk(n, l, table, r);
      var k := AwaitingSlot(n, l, r);
    }
  }

  /** Finality on every reached state: ordered checkpoints, on the chain, each with its quorum. */
  lemma CheckpointsOnChain(env: Env, config: nat, validators: seq<nat>, blocks: seq<Block>, s: State)
    requires Reached(env, config, validators, blocks, s) && blocks != []
    ensures s.finalized.slot <= s.justified.slot < |s.history|
    ensures s.history[s.finalized.slot] == s.finalized.root
    ensures s.history[s.justified.slot] == s.justified.root
    ensures forall c | c in {s.finalized, s.justified} :: c.slot > 0 ==>
              3 * |CountedVoters(env, validators, blocks, c.root)| >= 2 * |validators|
    ensures W.IsSlotJustified(s.justifiedSlots, s.finalized.slot, s.justified.slot) == Some(true)
  {
    RunRefinesLedger(env, config, validators, blocks);
    HeadSlot(env, config, validators, blocks, s);
    if s.justified.slot > s.finalized.slot {
      ExactJustification(env, config, validators, blocks, s);
      JustifiedRootIsABlock(env, config, validators, blocks, s);
    }
  }

  /**
   * Finality needs two links: a finalized checkpoint above genesis has its own quorum and was the
   * source of a counted vote for a later block of the chain that has a quorum too.
   */
  lemma FinalizedHasAJustifiedSuccessor(env: Env, config: nat, validators: seq<nat>, blocks: seq<Block>, s: State)
    returns (vote: L.Vote)
    requires Reached(env, config, validators, blocks, s) && s.finalized.slot > 0
    ensures LedgerOf(env, |validators|, blocks).Some? && vote in LedgerOf(env, |validators|, blocks).value.log
    ensures vote.source == s.finalized && s.finalized.root != ZERO_ROOT
    ensures s.finalized.slot < vote.target.slot < |s.history| && s.history[vote.target.slot] == vote.target.root
    ensures 3 * |CountedVoters(env, validators, blocks, vote.target.root)| >= 2 * |validators|
    ensures 3 * |CountedVoters(env, validators, blocks, s.finalized.root)| >= 2 * |validators|
  {
    var l := ReachedLedger(env, config, validators, blocks, s);
    LedgerIsLinked(env, |validators|, blocks);
    vote := L.LinkedSuccessor(|validators|, l);
  }

  /** The ledger of a reached state. */
  lemma ReachedLedger(env: Env, config: nat, validators: seq<nat>, blocks: seq<Block>, s: State) returns (l: L.Ledger)
    requires Reached(env, config, validators, blocks, s)
    ensures LedgerOf(env, |validators|, blocks) == Some(l) && L.Sound(|validators|, l)
    ensures s.history == l.history && s.finalized == l.finalized && s.justified == l.justified
  {
    RunRefinesLedger(env, config, validators, blocks);
    l := LedgerOf(env, |validators|, blocks).value;
  }

  lemma {:induction false} LedgerIsLinked(env: Env, n: nat, blocks: seq<Block>)
    ensures LedgerOf(env, n, blocks).Some? ==> L.Linked(n, LedgerOf(env, n, blocks).value)
  {
    if blocks != [] && LedgerOf(env, n, blocks).Some? {
      var front := blocks[..|blocks| - 1];
      var last := blocks[|blocks| - 1];
      LedgerIsLinked(env, n, front);
      var l := LedgerOf(env, n, front).value;
      var l' := L.Extend(l, last.parentRoot, last.slot);
      L.ExtendKeepsLinked(n, l, last.parentRoot, last.slot);
      L.CastAllKeepsLinked(env.build.Debug?, n, l', VotesOf(last.body));
    }
  }

  /** The justified checkpoint names a real block once it is above genesis. */
  lemma JustifiedRootIsABlock(env: Env, config: nat, validators: seq<nat>, blocks: seq<Block>, s: State)
    requires Reached(env, config, validators, blocks, s) && s.justified.slot > 0
    ensures s.justified.root != ZERO_ROOT
  {
    RunRefinesLedger(env, config, validators, blocks);
    var l := LedgerOf(env, |validators|, blocks).value;
    if s.justified.root == ZERO_ROOT {
      forall k | 0 <= k < |l.log| ensures l.log[k].target.root != ZERO_ROOT {
        assert L.OnChain(l, l.log[k].target);
      }
      L.NoVotesNoSupporters(l.log, ZERO_ROOT);
      assert false;
    }
  }

  /**
   * Finality safety along a chain: extending an accepted chain never moves the finalized slot back,
   * never changes the checkpoint at that slot, keeps the history as a prefix, and never takes the
   * justification of a slot away.
   */
  lemma {:induction false} FinalityIsMonotone(env: Env, config: nat, validators: seq<nat>, blocks: seq<Block>,
                                              m: nat, early: State, late: State)
    requires m <= |blocks|
    requires Reached(env, config, validators, blocks[..m], early)
    requires Reached(env, config, validators, blocks, late)
    ensures early.finalized.slot <= late.finalized.slot
    ensures m > 0 && early.finalized.slot == late.finalized.slot ==> early.finalized == late.finalized
    ensures early.history <= late.history
    ensures forall k: nat | k < |early.history| ::
              W.Justified(early.justifiedSlots, early.finalized.slot, k)
              ==> W.Justified(late.justifiedSlots, late.finalized.slot, k)
    decreases |blocks|
  {
    if m == |blocks| {
      assert blocks[..m] == blocks;
    } else {
      var front := blocks[..|blocks| - 1];
      assert front[..m] == blocks[..m];
      var mid := Run(env, GenesisState(env, config, validators), front).value;
      FinalityIsMonotone(env, config, validators, front, m, early, mid);
      BlockKeepsFinality(env, config, validators, blocks, mid, late);
      assert m > 0 ==> front != [];
    }
  }

  lemma BlockKeepsFinality(env: Env, config: nat, validators: seq<nat>, blocks: seq<Block>, mid: State, late: State)
    requires blocks != [] && Reached(env, config, validators, blocks[..|blocks| - 1], mid)
    requires Reached(env, config, validators, blocks, late)
    ensures mid.finalized.slot <= late.finalized.slot
    ensures |blocks| > 1 && mid.finalized.slot == late.finalized.slot ==> mid.finalized == late.finalized
    ensures mid.history <= late.history
    ensures forall k: nat | k < |mid.history| ::
              W.Justified(mid.justifiedSlots, mid.finalized.slot, k)
              ==> W.Justified(late.justifiedSlots, late.finalized.slot, k)
  {
    var n := |validators|;
    var front := blocks[..|blocks| - 1];
    RunRefinesLedger(env, config, validators, front);
    RunRefinesLedger(env, config, validators, blocks);
    HeadSlot(env, config, validators, front, mid);
    var l := LedgerOf(env, n, front).value;
    var l' := LedgerOf(env, n, blocks).value;
    TransitionRefines(env, n, l, mid, blocks[|blocks| - 1]);
    assert L.Advances(n, l, l');
    forall k: nat | k < |mid.history| && W.Justified(mid.justifiedSlots, mid.finalized.slot, k)
      ensures W.Justified(late.justifiedSlots, late.finalized.slot, k)
    {
      assert L.IsJustified(n, l, k);
      assert L.IsJustified(n, l', k);
    }
  }

  // ----- hash chain

  /** The post-state does not depend on the state root that the block claims. */
  lemma PostStateIgnoresStateRoot(env: Env, block: Block, parent: State, claimed: Root)
    ensures TransitionOutcome(env, block.(stateRoot := claimed), parent, false)
         == TransitionOutcome(env, block, parent, false)
  {
    var other := block.(stateRoot := claimed);
    if parent.slot < block.slot {
      var s := AdvanceSlots(env, parent, block.slot);
      assert HeaderOutcome(env, s, other) == HeaderOutcome(env, s, block);
    }
  }

  /** A block built with a placeholder root and then given the computed one passes verification. */
  lemma ProducedBlockIsAccepted(env: Env, draft: Block, parent: State, post: State)
    requires TransitionOutcome(env, draft, parent, false) == Ok(post)
    ensures TransitionOutcome(env, draft.(stateRoot := env.stateRoot(post)), parent, true) == Ok(post)
  {
    PostStateIgnoresStateRoot(env, draft, parent, env.stateRoot(post));
  }

  lemma {:induction false} AdvanceFillsStateRoot(env: Env, s: State, slot: nat)
    requires s.slot < slot && s.header.stateRoot == ZERO_ROOT && env.stateRoot(s) != ZERO_ROOT
    ensures AdvanceSlots(env, s, slot).header == s.header.(stateRoot := env.stateRoot(s))
  {
    AdvanceKeepsHeader(env, AdvanceSlot(env, s), slot);
  }

  lemma {:induction false} AdvanceKeepsHeader(env: Env, s: State, slot: nat)
    requires s.slot <= slot && s.header.stateRoot != ZERO_ROOT
    ensures AdvanceSlots(env, s, slot).header == s.header
    decreases slot - s.slot
  {
    if s.slot < slot {
      AdvanceKeepsHeader(env, AdvanceSlot(env, s), slot);
    }
  }

  /** State hashes are never the zero root. */
  ghost predicate NonZeroStates(env: Env) {
    forall s :: env.stateRoot(s) != ZERO_ROOT
  }

  /**
   * Across any number of empty slots the parent that a child must name is the hash of the accepted
   * block itself.
   */
  lemma ChildNamesItsParent(env: Env, block: Block, parent: State, post: State, child: Block)
    requires NonZeroStates(env) && TransitionOutcome(env, block, parent, true) == Ok(post)
    requires SlotsOutcome(env, post, child.slot).Ok?
    ensures var s := SlotsOutcome(env, post, child.slot).value;
            s.header == GetHeader(env, block) && env.headerRoot(s.header) == BlockRoot(env, block)
    ensures BlockOutcome(env, SlotsOutcome(env, post, child.slot).value, child).Ok?
            ==> child.parentRoot == BlockRoot(env, block)
  {
    TransitionFrame(env, block, parent, post);
    AdvanceFillsStateRoot(env, post, child.slot);
  }

  /** The same for the first block after genesis. */
  lemma FirstBlockNamesGenesis(env: Env, config: nat, validators: seq<nat>, child: Block)
    requires NonZeroStates(env) && child.slot > 0
    ensures var g := GenesisState(env, config, validators);
            AdvanceSlots(env, g, child.slot).header == GetHeader(env, GenesisBlock(env, g))
  {
    AdvanceFillsStateRoot(env, GenesisState(env, config, validators), child.slot);
  }

  /** The history of a chain, from its blocks alone: each block but the last at its own slot, zero elsewhere. */
  ghost function RootsBySlot(env: Env, genesis: Block, blocks: seq<Block>): seq<Root> {
    if blocks == [] then []
    else
      var front := RootsBySlot(env, genesis, blocks[..|blocks| - 1]);
      var parent := if |blocks| == 1 then genesis else blocks[|blocks| - 2];
      var gap := blocks[|blocks| - 1].slot - |front| - 1;
      front + [BlockRoot(env, parent)] + ZeroRoots(if gap < 0 then 0 else gap)
  }

  /** The history of a chain is that of its parent chain, the parent block at its slot, and empty slots. */
  lemma HistoryLast(env: Env, config: nat, validators: seq<nat>, blocks: seq<Block>, s: State) returns (mid: State)
    requires NonZeroStates(env) && Reached(env, config, validators, blocks, s) && blocks != []
    ensures Reached(env, config, validators, blocks[..|blocks| - 1], mid) && |s.history| == blocks[|blocks| - 1].slot
    ensures var parent := HeadBlock(env, config, validators, blocks[..|blocks| - 1]);
            && |mid.history| == parent.slot < |s.history|
            && s.history == mid.history + [BlockRoot(env, parent)] + ZeroRoots(|s.history| - parent.slot - 1)
  {
    var front, last := blocks[..|blocks| - 1], blocks[|blocks| - 1];
    mid := Run(env, GenesisState(env, config, validators), front).value;
    ReachedShape(env, config, validators, front, mid);
    HeadSlot(env, config, validators, front, mid);
    TransitionFrame(env, last, mid, s);
    HeadHeader(env, config, validators, front, mid, last);
    AdvanceSlotsFrame(env, mid, last.slot);
  }

  /** The history list is exactly the chain of block hashes, with the zero root in empty slots. */
  lemma {:induction false} HistoryIsTheChain(env: Env, config: nat, validators: seq<nat>, blocks: seq<Block>, s: State)
    requires NonZeroStates(env) && Reached(env, config, validators, blocks, s)
    ensures var g := GenesisState(env, config, validators);
            s.history == RootsBySlot(env, GenesisBlock(env, g), blocks)
  {
    if blocks != [] {
      var mid := HistoryLast(env, config, validators, blocks, s);
      HistoryIsTheChain(env, config, validators, blocks[..|blocks| - 1], mid);
    }
  }

  /** Why a block on top of `parent` is refused, from the ledger of the chain alone; None for a valid one. */
  ghost function Verdict(env: Env, n: nat, l: L.Ledger, parent: Root, block: Block): Option<Error>
    requires n > 0
  {
    if block.slot <= |l.history| then Some(InvalidSlot)
    else if block.proposer != block.slot % n then Some(InvalidProposer)
    else if block.parentRoot != parent then Some(ParentRootDoesntMatch)
    else
      match L.CastAll(env.build.Debug?, n, L.Extend(l, block.parentRoot, block.slot), VotesOf(block.body))
      case Rejected(e) => Some(CastFailure(e))
      case Accepted(_) => None
  }

  /** The last block of a chain, genesis for the empty one. */
  ghost function HeadBlock(env: Env, config: nat, validators: seq<nat>, blocks: seq<Block>): Block {
    if blocks == [] then GenesisBlock(env, GenesisState(env, config, validators)) else blocks[|blocks| - 1]
  }

  lemma HeadHeader(env: Env, config: nat, validators: seq<nat>, blocks: seq<Block>, s: State, child: Block)
    requires NonZeroStates(env) && Reached(env, config, validators, blocks, s) && s.slot < child.slot
    ensures AdvanceSlots(env, s, child.slot).header == GetHeader(env, HeadBlock(env, config, validators, blocks))
  {
    if blocks == [] {
      FirstBlockNamesGenesis(env, config, validators, child);
    } else {
      var parent := Run(env, GenesisState(env, config, validators), blocks[..|blocks| - 1]).value;
      ChildNamesItsParent(env, blocks[|blocks| - 1], parent, s, child);
    }
  }

  /** The outcome for `block` is the error of the verdict, or else the claimed state root alone decides. */
  ghost predicate Judged(env: Env, s: State, block: Block, v: Option<Error>) {
    var post := TransitionOutcome(env, block, s, false);
    var r := TransitionOutcome(env, block, s, true);
    if v.Some? then post == r == Err(v.value)
    else post.Ok? && r == if block.stateRoot == env.stateRoot(post.value) then post else Err(StateRootDoesntMatch)
  }

  lemma JudgedByLedger(env: Env, n: nat, l: L.Ledger, s: State, block: Block, parent: Root)
    requires CollisionFree(env) && n > 0 && Inv(env, n, l, s) && s.slot == s.header.slot
    requires s.slot < block.slot ==> env.headerRoot(AdvanceSlots(env, s, block.slot).header) == parent
    ensures Judged(env, s, block, Verdict(env, n, l, parent, block))
  {
    if s.slot < block.slot {
      SlotsKeepInv(env, n, l, s, block.slot);
      AdvanceSlotsFrame(env, s, block.slot);
      var s1 := AdvanceSlots(env, s, block.slot);
      if HeaderOutcome(env, s1, block).Ok? {
        BlockRefines(env, n, l, s1, block);
      }
    }
  }

  /**
   * Exact acceptance: on every reached state the outcome for a candidate block, with the very error, is
   * the verdict of the ledger on a child of the last block.
   */
  lemma AcceptanceIsExact(env: Env, config: nat, validators: seq<nat>, blocks: seq<Block>, s: State, block: Block)
    requires NonZeroStates(env) && Reached(env, config, validators, blocks, s)
    ensures LedgerOf(env, |validators|, blocks).Some?
    ensures Judged(env, s, block, Verdict(env, |validators|, LedgerOf(env, |validators|, blocks).value,
                                          BlockRoot(env, HeadBlock(env, config, validators, blocks)), block))
  {
    RunRefinesLedger(env, config, validators, blocks);
    HeadSlot(env, config, validators, blocks, s);
    if s.slot < block.slot {
      HeadHeader(env, config, validators, blocks, s, block);
    }
    JudgedByLedger(env, |validators|, LedgerOf(env, |validators|, blocks).value, s, block,
                   BlockRoot(env, HeadBlock(env, config, validators, blocks)));
  }

  /** A non-empty slot of the history: of the parent chain, or the parent block itself. */
  lemma HistoryAt(env: Env, config: nat, validators: seq<nat>, blocks: seq<Block>, s: State, k: nat) returns (mid: State)
    requires NonZeroStates(env) && Reached(env, config, validators, blocks, s) && blocks != []
    requires k < |s.history| && (k == 0 || s.history[k] != ZERO_ROOT)
    ensures Reached(env, config, validators, blocks[..|blocks| - 1], mid)
    ensures var parent := HeadBlock(env, config, validators, blocks[..|blocks| - 1]);
            || (k < |mid.history| && mid.history[k] == s.history[k])
            || (k == parent.slot && s.history[k] == BlockRoot(env, parent))
  {
    mid := HistoryLast(env, config, validators, blocks, s);
  }

  // ----- the assertion of `isJustifiableSlot`

  /** A block that names its parent, slot and proposer correctly. */
  ghost predicate WellPlaced(n: nat, l: L.Ledger, parent: Root, block: Block)
    requires n > 0
  {
    |l.history| < block.slot && block.proposer == block.slot % n && block.parentRoot == parent
  }

  /**
   * A block makes the transition fail its assertion exactly in a debug build, when the block is well
   * placed and one of its votes, reached and countable, brings its target to two thirds with a source
   * more than one slot below finality at that point.
   */
  lemma AssertionFailsExactly(env: Env, config: nat, validators: seq<nat>, blocks: seq<Block>, s: State, block: Block)
    requires NonZeroStates(env) && Reached(env, config, validators, blocks, s)
    ensures LedgerOf(env, |validators|, blocks).Some?
    ensures var l := LedgerOf(env, |validators|, blocks).value;
            var parent := BlockRoot(env, HeadBlock(env, config, validators, blocks));
            TransitionOutcome(env, block, s, true) == Err(AssertionFailed) <==>
            && env.build.Debug? && WellPlaced(|validators|, l, parent, block)
            && L.SomeAsserts(|validators|, L.Extend(l, parent, block.slot), VotesOf(block.body))
  {
    AcceptanceIsExact(env, config, validators, blocks, s, block);
    var l := LedgerOf(env, |validators|, blocks).value;
    var parent := BlockRoot(env, HeadBlock(env, config, validators, blocks));
    VerdictAsserts(env, |validators|, l, parent, block);
    JudgedAsserts(env, s, block, Verdict(env, |validators|, l, parent, block));
  }

  lemma VerdictAsserts(env: Env, n: nat, l: L.Ledger, parent: Root, block: Block)
    requires n > 0
    ensures Verdict(env, n, l, parent, block) == Some(AssertionFailed) <==>
            && env.build.Debug? && WellPlaced(n, l, parent, block)
            && L.SomeAsserts(n, L.Extend(l, parent, block.slot), VotesOf(block.body))
  {
    if WellPlaced(n, l, parent, block) {
      L.AssertsOnlyWhenOn(env.build.Debug?, n, L.Extend(l, parent, block.slot), VotesOf(block.body));
    }
  }

  lemma JudgedAsserts(env: Env, s: State, block: Block, v: Option<Error>)
    requires Judged(env, s, block, v)
    ensures TransitionOutcome(env, block, s, true) == Err(AssertionFailed) <==> v == Some(AssertionFailed)
  {
  }

  /** The ledger of a chain with one more block at `slot`, before the votes of that block. */
  ghost function ExtendedLedger(env: Env, config: nat, validators: seq<nat>, blocks: seq<Block>, slot: nat): L.Ledger
    requires LedgerOf(env, |validators|, blocks).Some? && slot > |LedgerOf(env, |validators|, blocks).value.history|
  {
    L.Extend(LedgerOf(env, |validators|, blocks).value, BlockRoot(env, HeadBlock(env, config, validators, blocks)), slot)
  }

  /** In a reached state, the next block can be at any later slot. */
  lemma LedgerIsBehind(env: Env, config: nat, validators: seq<nat>, blocks: seq<Block>, s: State)
    requires Reached(env, config, validators, blocks, s)
    ensures LedgerOf(env, |validators|, blocks).Some? && |LedgerOf(env, |validators|, blocks).value.history| == s.slot
  {
    RunRefinesLedger(env, config, validators, blocks);
    HeadSlot(env, config, validators, blocks, s);
  }

  /** Every chain can be extended, at any later slot, by a block with any votes that the ledger accepts. */
  lemma NextBlock(env: Env, config: nat, validators: seq<nat>, blocks: seq<Block>, s: State, slot: nat,
                  body: seq<Attestation>)
    returns (block: Block, post: State)
    requires NonZeroStates(env) && Reached(env, config, validators, blocks, s)
    requires LedgerOf(env, |validators|, blocks).Some? && slot > |LedgerOf(env, |validators|, blocks).value.history|
    requires L.CastAll(env.build.Debug?, |validators|, ExtendedLedger(env, config, validators, blocks, slot),
                       VotesOf(body)).Accepted?
    ensures block.slot == slot && block.parentRoot == BlockRoot(env, HeadBlock(env, config, validators, blocks))
    ensures TransitionOutcome(env, block, s, true) == Ok(post) && block.body == body
    ensures Reached(env, config, validators, blocks + [block], post) && post.slot == slot
    ensures LedgerOf(env, |validators|, blocks + [block])
         == Some(L.CastAll(env.build.Debug?, |validators|, ExtendedLedger(env, config, validators, blocks, slot),
                           VotesOf(body)).ledger)
  {
    var parent := BlockRoot(env, HeadBlock(env, config, validators, blocks));
    var draft := Block(slot, slot % |validators|, parent, ZERO_ROOT, body);
    AcceptanceIsExact(env, config, validators, blocks, s, draft);
    post := TransitionOutcome(env, draft, s, false).value;
    block := draft.(stateRoot := env.stateRoot(post));
    ProducedBlockIsAccepted(env, draft, s, post);
    assert (blocks + [block])[..|blocks|] == blocks;
    HeadSlot(env, config, validators, blocks + [block], post);
  }

  /** In particular by a block without votes. */
  lemma EmptyBlock(env: Env, config: nat, validators: seq<nat>, blocks: seq<Block>, s: State, slot: nat)
    returns (block: Block, post: State)
    requires NonZeroStates(env) && Reached(env, config, validators, blocks, s) && s.slot < slot
    ensures block.slot == slot && block.parentRoot == BlockRoot(env, HeadBlock(env, config, validators, blocks))
    ensures TransitionOutcome(env, block, s, true) == Ok(post)
    ensures Reached(env, config, validators, blocks + [block], post) && post.slot == slot
    ensures LedgerOf(env, |validators|, blocks).Some? && slot > |LedgerOf(env, |validators|, blocks).value.history|
    ensures LedgerOf(env, |validators|, blocks + [block])
         == Some(ExtendedLedger(env, config, validators, blocks, slot))
  {
    LedgerIsBehind(env, config, validators, blocks, s);
    assert VotesOf([]) == [];
    block, post := NextBlock(env, config, validators, blocks, s, slot, []);
  }

  /** Header hashes are never the zero root. */
  ghost predicate NonZeroHeaders(env: Env) {
    forall h :: env.headerRoot(h) != ZERO_ROOT
  }

  /** A vote of validator 0 alone. */
  ghost function LoneAttestation(source: Checkpoint, target: Checkpoint): Attestation {
    Attestation([true], AttestationData(target.slot, target, target, source))
  }

  /** The hash of a block on top of a reached chain is new to its history. */
  lemma HeadIsFresh(env: Env, config: nat, validators: seq<nat>, blocks: seq<Block>, s: State)
    requires NonZeroStates(env) && Reached(env, config, validators, blocks, s)
    ensures var parent := BlockRoot(env, HeadBlock(env, config, validators, blocks));
            parent == ZERO_ROOT || parent !in s.history
  {
    RunRefinesLedger(env, config, validators, blocks);
    HeadSlot(env, config, validators, blocks, s);
    var child := GenesisBlock(env, s).(slot := s.slot + 1);
    HeadHeader(env, config, validators, blocks, s, child);
    var s1 := AdvanceSlots(env, s, child.slot);
    SlotsKeepInv(env, |validators|, LedgerOf(env, |validators|, blocks).value, s, child.slot);
    ParentIsFresh(env, s1.history, s1.header);
  }

  /** An accepted block without votes on top of `parent`, in a state where nothing is justified above genesis. */
  ghost predicate QuietStep(env: Env, parent: Block, s: State, block: Block, slot: nat, post: State) {
    && TransitionOutcome(env, block, s, true) == Ok(post) && block.slot == slot && block.parentRoot == BlockRoot(env, parent)
    && post.justified.slot == post.finalized.slot == 0
  }

  /** A chain without votes. */
  ghost predicate QuietChain(env: Env, config: nat, validators: seq<nat>, blocks: seq<Block>, s: State) {
    && Reached(env, config, validators, blocks, s) && LedgerOf(env, |validators|, blocks).Some?
    && var l := LedgerOf(env, |validators|, blocks).value;
       l.log == [] && l.justified.slot == l.finalized.slot == 0 && |l.history| == s.slot
  }

  /** A quiet chain goes on with a quiet step, whose parent enters the history. */
  lemma QuietBlock(env: Env, config: nat, validators: seq<nat>, blocks: seq<Block>, s: State, slot: nat)
    returns (block: Block, post: State)
    requires NonZeroStates(env) && QuietChain(env, config, validators, blocks, s) && s.slot < slot
    ensures QuietStep(env, HeadBlock(env, config, validators, blocks), s, block, slot, post)
    ensures QuietChain(env, config, validators, blocks + [block], post) && post.slot == slot
    ensures HeadBlock(env, config, validators, blocks + [block]) == block
    ensures LedgerOf(env, |validators|, blocks + [block]) == Some(ExtendedLedger(env, config, validators, blocks, slot))
  {
    var l := LedgerOf(env, |validators|, blocks).value;
    block, post := EmptyBlock(env, config, validators, blocks, s, slot);
    L.ExtendHistory(l, BlockRoot(env, HeadBlock(env, config, validators, blocks)), slot);
    RunRefinesLedger(env, config, validators, blocks + [block]);
  }

  lemma GenesisIsQuiet(env: Env, config: nat, validators: seq<nat>)
    requires CollisionFree(env) && |validators| > 0
    ensures QuietChain(env, config, validators, [], GenesisState(env, config, validators))
  {
  }

  /** Three blocks without votes at slots 2, 3 and 4, and what the ledger then says of a block at slot 5. */
  lemma ThreeQuietSteps(env: Env, config: nat, key: nat)
    returns (b2: Block, s2: State, b3: Block, s3: State, b4: Block, s4: State)
    requires CollisionFree(env) && NonZeroStates(env) && NonZeroHeaders(env)
    ensures var s := GenesisState(env, config, [key]);
            && QuietStep(env, GenesisBlock(env, s), s, b2, 2, s2)
            && QuietStep(env, b2, s2, b3, 3, s3) && QuietStep(env, b3, s3, b4, 4, s4)
    ensures QuietChain(env, config, [key], [b2, b3, b4], s4) && s4.slot == 4
    ensures var h := ExtendedLedger(env, config, [key], [b2, b3, b4], 5);
            L.FreshChain(h) && h.history[2] == BlockRoot(env, b2) && h.history[3] == BlockRoot(env, b3)
  {
    b2, s2, b3, s3 := TwoQuietSteps(env, config, key);
    b4, s4 := QuietBlock(env, config, [key], [b2, b3], s3, 4);
    assert [b2, b3] + [b4] == [b2, b3, b4];
    FreshHistory(env, config, key, b2, b3, b4);
    FreshAtFive(env, config, key, [b2, b3, b4], s4);
  }

  lemma TwoQuietSteps(env: Env, config: nat, key: nat) returns (b2: Block, s2: State, b3: Block, s3: State)
    requires CollisionFree(env) && NonZeroStates(env)
    ensures var s := GenesisState(env, config, [key]);
            QuietStep(env, GenesisBlock(env, s), s, b2, 2, s2) && QuietStep(env, b2, s2, b3, 3, s3)
    ensures QuietChain(env, config, [key], [b2, b3], s3) && s3.slot == 3
    ensures LedgerOf(env, 1, [b2]) == Some(L.Extend(L.Genesis(), BlockRoot(env, HeadBlock(env, config, [key], [])), 2))
    ensures LedgerOf(env, 1, [b2]).Some? && |LedgerOf(env, 1, [b2]).value.history| == 2
    ensures LedgerOf(env, 1, [b2, b3]) == Some(L.Extend(LedgerOf(env, 1, [b2]).value, BlockRoot(env, b2), 3))
  {
    GenesisIsQuiet(env, config, [key]);
    b2, s2 := QuietBlock(env, config, [key], [], GenesisState(env, config, [key]), 2);
    assert [] + [b2] == [b2];
    b3, s3 := QuietBlock(env, config, [key], [b2], s2, 3);
    assert [b2] + [b3] == [b2, b3];
  }

  /** A reached chain of this shape is a fresh one. */
  lemma FreshAtFive(env: Env, config: nat, key: nat, blocks: seq<Block>, s: State)
    requires NonZeroStates(env) && NonZeroHeaders(env) && Reached(env, config, [key], blocks, s)
    requires LedgerOf(env, 1, blocks).Some? && |LedgerOf(env, 1, blocks).value.history| == 4
    requires var h := ExtendedLedger(env, config, [key], blocks, 5);
             && |h.history| == 5 && h.log == [] && h.finalized == Checkpoint(h.history[0], 0)
             && h.history[0] != ZERO_ROOT && h.history[2] != ZERO_ROOT && h.history[3] != ZERO_ROOT
             && h.history[4] != ZERO_ROOT
    ensures L.FreshChain(ExtendedLedger(env, config, [key], blocks, 5))
  {
    HeadIsFresh(env, config, [key], blocks, s);
    RunRefinesLedger(env, config, [key], blocks);
    L.ExtendKeepsSound(1, LedgerOf(env, 1, blocks).value, BlockRoot(env, HeadBlock(env, config, [key], blocks)), 5);
  }

  /** The history of a chain of three blocks without votes, seen from a block at slot 5. */
  lemma FreshHistory(env: Env, config: nat, key: nat, b2: Block, b3: Block, b4: Block)
    requires LedgerOf(env, 1, [b2]) == Some(L.Extend(L.Genesis(), BlockRoot(env, HeadBlock(env, config, [key], [])), 2))
    requires LedgerOf(env, 1, [b2]).Some? && |LedgerOf(env, 1, [b2]).value.history| < 3
    requires LedgerOf(env, 1, [b2, b3]) == Some(L.Extend(LedgerOf(env, 1, [b2]).value, BlockRoot(env, b2), 3))
    requires LedgerOf(env, 1, [b2, b3]).Some? && |LedgerOf(env, 1, [b2, b3]).value.history| < 4
    requires LedgerOf(env, 1, [b2, b3, b4]) == Some(L.Extend(LedgerOf(env, 1, [b2, b3]).value, BlockRoot(env, b3), 4))
    ensures LedgerOf(env, 1, [b2, b3, b4]).Some? && |LedgerOf(env, 1, [b2, b3, b4]).value.history| == 4
    ensures var h := L.Extend(LedgerOf(env, 1, [b2, b3, b4]).value, BlockRoot(env, b4), 5);
            && h.history == [BlockRoot(env, HeadBlock(env, config, [key], [])), ZERO_ROOT, BlockRoot(env, b2),
                             BlockRoot(env, b3), BlockRoot(env, b4)]
            && h.log == [] && h.finalized == Checkpoint(h.history[0], 0)
  {
    var l2, l3, l4 := LedgerOf(env, 1, [b2]).value, LedgerOf(env, 1, [b2, b3]).value, LedgerOf(env, 1, [b2, b3, b4]).value;
    L.ExtendHistory(L.Genesis(), BlockRoot(env, HeadBlock(env, config, [key], [])), 2);
    L.ExtendHistory(l2, BlockRoot(env, b2), 3);
    L.ExtendHistory(l3, BlockRoot(env, b3), 4);
    L.ExtendHistory(l4, BlockRoot(env, b4), 5);
  }

  lemma ThreeEmptyBlocks(env: Env, config: nat, key: nat) returns (blocks: seq<Block>, s: State, l: L.Ledger)
    requires CollisionFree(env) && NonZeroStates(env) && NonZeroHeaders(env)
    ensures Reached(env, config, [key], blocks, s) && |blocks| == 3 && s.slot == 4
    ensures LedgerOf(env, 1, blocks) == Some(l) && |l.history| == 4
    ensures L.FreshChain(ExtendedLedger(env, config, [key], blocks, 5))
  {
    var b2, s2, b3, s3, b4, s4 := ThreeQuietSteps(env, config, key);
    blocks, s, l := [b2, b3, b4], s4, LedgerOf(env, 1, [b2, b3, b4]).value;
  }

  /** Three votes of a lone validator whose last one scans from below finality. */
  lemma FatalBody(h: L.Ledger) returns (body: seq<Attestation>)
    requires L.FreshChain(h)
    ensures L.SomeAsserts(1, h, VotesOf(body))
  {
    var v, w, x := L.Between(h, 0, 2), L.Between(h, 2, 3), L.Between(h, 0, 4);
    body := [LoneAttestation(v.source, v.target), LoneAttestation(w.source, w.target),
             LoneAttestation(x.source, x.target)];
    LoneVotes(v, w, x);
    L.VotesThatScanBelow(h);
  }

  lemma LoneVotes(v: L.Vote, w: L.Vote, x: L.Vote)
    requires v.voters == w.voters == x.voters == {0}
    ensures VotesOf([LoneAttestation(v.source, v.target), LoneAttestation(w.source, w.target),
                     LoneAttestation(x.source, x.target)]) == [v, w, x]
  {
    assert Voters([true]) == {0};
  }

  /**
   * The assertion is reachable: for one validator there is a chain of three blocks without votes from
   * genesis, and a block on top of it with three votes, on which a debug build aborts.
   */
  lemma AssertionIsReachable(env: Env, config: nat, key: nat) returns (blocks: seq<Block>, s: State, block: Block)
    requires CollisionFree(env) && NonZeroStates(env) && NonZeroHeaders(env) && env.build.Debug?
    ensures Reached(env, config, [key], blocks, s) && |blocks| == 3
    ensures TransitionOutcome(env, block, s, true) == Err(AssertionFailed)
  {
    var l;
    blocks, s, l := ThreeEmptyBlocks(env, config, key);
    var parent := BlockRoot(env, HeadBlock(env, config, [key], blocks));
    var body := FatalBody(L.Extend(l, parent, 5));
    block := Block(5, 0, parent, ZERO_ROOT, body);
    AssertionFailsExactly(env, config, [key], blocks, s, block);
  }

  // ----- the justified slot is not monotone

  /**
   * An accepted block moves the justified slot of its chain back exactly when some vote of it completes
   * two thirds, and the last one that does has its target before the justified slot.
   */
  lemma JustifiedGoesBackExactly(env: Env, config: nat, validators: seq<nat>, blocks: seq<Block>, s: State, block: Block,
                                 post: State)
    requires NonZeroStates(env) && Reached(env, config, validators, blocks, s)
    requires TransitionOutcome(env, block, s, true) == Ok(post)
    ensures LedgerOf(env, |validators|, blocks).Some? && block.slot > |LedgerOf(env, |validators|, blocks).value.history|
    ensures var l := ExtendedLedger(env, config, validators, blocks, block.slot);
            post.justified.slot < s.justified.slot <==>
            exists k: nat :: L.LastCompletes(env.build.Debug?, |validators|, l, VotesOf(block.body), k)
                             && VotesOf(block.body)[k].target.slot < s.justified.slot
  {
    var n := |validators|;
    AcceptanceIsExact(env, config, validators, blocks, s, block);
    RunRefinesLedger(env, config, validators, blocks);
    TransitionRefines(env, n, LedgerOf(env, n, blocks).value, s, block);
    L.JustifiedGoesBackExactly(env.build.Debug?, n, ExtendedLedger(env, config, validators, blocks, block.slot),
                               VotesOf(block.body));
  }

  lemma LoneVoteOf(v: L.Vote)
    requires v.voters == {0}
    ensures VotesOf([LoneAttestation(v.source, v.target)]) == [v]
  {
    assert Voters([true]) == {0};
  }

  /**
   * An input: one validator, three blocks without votes from genesis, a fourth whose vote justifies slot 3, and
   * a fifth whose vote justifies slot 2.
   */
  lemma JustifiedGoesBack(env: Env, config: nat, key: nat) returns (blocks: seq<Block>, s: State, block: Block, post: State)
    requires CollisionFree(env) && NonZeroStates(env) && NonZeroHeaders(env)
    ensures Reached(env, config, [key], blocks, s) && |blocks| == 4 && s.justified.slot == 3
    ensures TransitionOutcome(env, block, s, true) == Ok(post) && post.justified.slot == 2
  {
    var front, mid, l := ThreeEmptyBlocks(env, config, key);
    var h := ExtendedLedger(env, config, [key], front, 5);
    var v, w := L.Between(h, 0, 3), L.Between(h, 0, 2);
    L.ThirdIsJustified(env.build.Debug?, h);
    LoneVoteOf(v);
    var b5;
    b5, s := NextBlock(env, config, [key], front, mid, 5, [LoneAttestation(v.source, v.target)]);
    blocks := front + [b5];
    var root := BlockRoot(env, HeadBlock(env, config, [key], blocks));
    L.ThenSecond(env.build.Debug?, h, root);
    LoneVoteOf(w);
    block, post := NextBlock(env, config, [key], blocks, s, 6, [LoneAttestation(w.source, w.target)]);
    RunRefinesLedger(env, config, [key], blocks);
    RunRefinesLedger(env, config, [key], blocks + [block]);
  }
}
