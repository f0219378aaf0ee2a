/**
 * The client: block import, votes, head, safe target and attestation target together. Every operation keeps
 * the invariant, so what it promises holds on every run from genesis, for blocks and votes in any order.
 */
module Clients {
  import opened Types
  import opened Justifiable
  import opened AggregationBits
  import opened StateTransition
  import opened Chains
  import R = Refinement
  import opened Forests
  import opened CachedTrees
  import opened BlockTrees
  import opened TreeViews
  import opened LmdGhost
  import opened SafeTargets
  import opened ForkChoiceStores
  import opened TreeForkChoice
  import opened AttestationTargets
  import opened BlockImports
  import opened PrunedBlocks

  // ----- the head

  ghost predicate Is(env: Env, c: Checkpoint, block: Block) {
    BlockRoot(env, block) == c.root && block.slot == c.slot
  }

  /** The checkpoint names a block. */
  ghost predicate IsBlock(env: Env, c: Checkpoint) {
    exists block :: Is(env, c, block)
  }

  /** Such a checkpoint is stored under its slot whenever it is stored. */
  lemma BlockIsAt(env: Env, config: nat, validators: seq<nat>, h: Forest, states: map<Root, State>, f: Forest,
                  justified: BlockIndex, c: Checkpoint)
    requires Consistent(env, config, validators, h, states, f, justified) && IsBlock(env, c)
    ensures HeadOk(h, c) && JustifiedOk(f, justified, h)
  {
    if c.root in h {
      var chains, named :| ImportOk(env, config, validators, h, states, chains, f, justified, named);
      var block :| Is(env, c, block);
      HeadIsNamed(env, config, validators, h, states, chains, c.root);
      assert R.Collide(env, GetHeader(env, block),
                       GetHeader(env, HeadBlock(env, config, validators, chains[c.root])));
    }
  }

  lemma StoredIsBlock(env: Env, config: nat, validators: seq<nat>, h: Forest, states: map<Root, State>, f: Forest,
                      justified: BlockIndex, c: Checkpoint)
    requires Consistent(env, config, validators, h, states, f, justified) && At(h, c)
    ensures IsBlock(env, c)
  {
    var chains, named :| ImportOk(env, config, validators, h, states, chains, f, justified, named);
    HeadIsNamed(env, config, validators, h, states, chains, c.root);
    assert Is(env, c, HeadBlock(env, config, validators, chains[c.root]));
  }

  /** The validators of every stored state are those of genesis. */
  lemma SameValidators(env: Env, config: nat, validators: seq<nat>, h: Forest, states: map<Root, State>, f: Forest,
                       justified: BlockIndex, b: Root)
    requires Consistent(env, config, validators, h, states, f, justified) && b in states
    ensures states[b].validators == validators && |validators| > 0
  {
    var chains, named :| ImportOk(env, config, validators, h, states, chains, f, justified, named);
    assert StateReached(env, config, validators, h, states, chains, b);
    HeadSlot(env, config, validators, chains[b], states[b]);
  }

  /** What a client keeps beyond its importer: the justified block, the head and the voters are in order. */
  datatype Standing = Standing(tree: Snapshot, head: Checkpoint, votes: Ballots)

  ghost predicate ClientOk(env: Env, n: nat, s: Standing) {
    match s
    case Standing(tree, head, votes) => CachedOrLost(env, tree) && IsBlock(env, head) && VotersBelow(n, votes)
  }

  lemma GenesisClient(env: Env, config: nat, validators: seq<nat>)
    ensures var k := GenesisKept(env, config, validators);
            ClientOk(env, |validators|, Standing(k.tree, Checkpoint(k.tree.root, 0), Ballots(map[], map[])))
  {
    var k := GenesisKept(env, config, validators);
    assert Is(env, Checkpoint(k.tree.root, 0), GenesisBlock(env, GenesisState(env, config, validators)));
  }

  // ----- the signatures and votes of a block

  const MAX_ATTESTATIONS_DATA := 16

  ghost predicate AllBelow(n: nat, bits: seq<bool>) {
    forall i | i in Voters(bits) :: i < n
  }

  /**
   * One proof for each attestation, whose participants are validators of the parent state; `verified` stands
   * for the signature scheme.
   */
  ghost predicate SignaturesOk(n: nat, body: seq<Attestation>, proofs: seq<seq<bool>>, verified: bool) {
    |proofs| == |body| && (forall j | 0 <= j < |proofs| :: AllBelow(n, proofs[j])) && verified
  }

  method ParticipantsKnown(n: nat, bits: seq<bool>) returns (ok: bool)
    ensures ok <==> AllBelow(n, bits)
  {
    var i := 0;
    while i < |bits|
      invariant 0 <= i <= |bits| && forall k | 0 <= k < i && bits[k] :: k < n
    {
      if bits[i] && i >= n {
        assert i in Voters(bits);
        return false;
      }
      i := i + 1;
    }
    return true;
  }

  /** `validateBlockSignatures`. */
  method ValidateSignatures(n: nat, body: seq<Attestation>, proofs: seq<seq<bool>>, verified: bool) returns (ok: bool)
    ensures ok <==> SignaturesOk(n, body, proofs, verified)
  {
    if |proofs| != |body| {
      return false;
    }
    var j := 0;
    while j < |proofs|
      invariant 0 <= j <= |proofs| && forall k | 0 <= k < j :: AllBelow(n, proofs[k])
    {
      var known := ParticipantsKnown(n, proofs[j]);
      if !known {
        return false;
      }
      j := j + 1;
    }
    return verified;
  }

  datatype BlockResult =
    | NotImported(result: ImportResult)
    | CountMismatch
    | TooManyAttestations
    | BadAttestation(error: AttestationError)
    | HeadNotStored
    | HeadUpdated

  /** How the votes of an imported block are counted; `r` is None when the head is to be updated. */
  ghost predicate VotesCounted(f: Forest, now: nat, b: Ballots, body: seq<Attestation>, proofs: seq<seq<bool>>,
                               r: Option<BlockResult>, b': Ballots) {
    if |proofs| != |body| then r == Some(CountMismatch) && b' == b
    else if |body| > MAX_ATTESTATIONS_DATA then r == Some(TooManyAttestations) && b' == b
    else
      var c := CastBody(f, now, b, body, proofs, |body|);
      b' == c.ballots && r == if c.error.Some? then Some(BadAttestation(c.error.value)) else None
  }

  /** What follows the import: the votes, and after them the head. */
  ghost predicate VotesAndHead(v: View, justified: Root, now: nat, body: seq<Attestation>, proofs: seq<seq<bool>>,
                               b: Ballots, before: Checkpoint, r: BlockResult, b': Ballots, after: Checkpoint)
    requires ViewOk(v)
  {
    var counted := if r == HeadUpdated || r == HeadNotStored then None else Some(r);
    && VotesCounted(v.headers, now, b, body, proofs, counted, b')
    && if counted.None? then HeadMoved(v, justified, Heads(b'.known), before, r == HeadUpdated, after)
       else after == before
  }

  datatype GossipResult = TargetStateNotFound | DroppedVote | InvalidVote(error: AttestationError) | Pending

  ghost predicate GossipHandled(f: Forest, n: nat, bits: seq<bool>, data: AttestationData, verified: bool, now: nat,
                                b: Ballots, r: GossipResult, b': Ballots) {
    var error := if Voters(bits) == {} then None else Admitted(f, now, data, false);
    && r == (if data.target.root !in f then TargetStateNotFound
             else if !AllBelow(n, bits) || !verified then DroppedVote
             else if error.Some? then InvalidVote(error.value)
             else Pending)
    && b' == if r == Pending then Cast(b, Voters(bits), data, false) else b
  }

  class Client {
    const importer: Importer
    const store: ForkChoiceStore

    ghost predicate Valid()
      reads this, importer, importer.blockTree, importer.blockTree.tree, importer.blockTree.storage
      reads store`head, store`known, store`pending
    {
      importer.Valid() && ClientOk(importer.env, |importer.validators|, Now())
    }

    ghost function Now(): Standing
      reads this, importer.blockTree, importer.blockTree.tree, importer.blockTree.storage
      reads store`head, store`known, store`pending
    {
      Standing(importer.blockTree.Now(), store.head, store.Votes())
    }

    constructor (env: Env, config: nat, validators: seq<nat>)
      requires EnvOk(env, validators)
      ensures Valid() && fresh(importer) && fresh(importer.blockTree) && fresh(importer.blockTree.tree)
      ensures fresh(importer.blockTree.storage) && fresh(store)
      ensures importer.env == env && importer.config == config && importer.validators == validators
      ensures importer.Now() == GenesisKept(env, config, validators)
      ensures store.head == Checkpoint(importer.blockTree.tree.root, 0)
    {
      var i := new Importer(env, config, validators);
      var justified := i.blockTree.tree.justified;
      var s := new ForkChoiceStore(Checkpoint(justified.hash, justified.slot));
      importer, store := i, s;
      GenesisClient(env, config, validators);
    }

    /** The head is stored under its slot, or not at all; the justified block is cached or absent. */
    lemma HeadIsAt()
      requires importer.Valid() && IsBlock(importer.env, store.head)
      ensures HeadOk(importer.blockTree.storage.headers, store.head)
      ensures JustifiedOk(importer.blockTree.tree.nodes, importer.blockTree.tree.justified,
                          importer.blockTree.storage.headers)
    {
      BlockIsAt(importer.env, importer.config, importer.validators, importer.blockTree.storage.headers, importer.states,
                importer.blockTree.tree.nodes, importer.blockTree.tree.justified, store.head);
    }

    lemma NewHeadIsBlock()
      requires importer.Valid() && At(importer.blockTree.storage.headers, store.head)
      ensures IsBlock(importer.env, store.head)
    {
      StoredIsBlock(importer.env, importer.config, importer.validators, importer.blockTree.storage.headers,
                    importer.states, importer.blockTree.tree.nodes, importer.blockTree.tree.justified, store.head);
    }

    /** `updateHead`: after anything that happened, the head moves to a leaf exactly while the old head is stored. */
    method UpdateHead() returns (ok: bool)
      requires Valid()
      modifies store`head
      ensures Valid()
      ensures HeadMoved(importer.blockTree.GetView(), importer.blockTree.tree.justified.hash, Heads(store.known),
                        old(store.head), ok, store.head)
    {
      HeadIsAt();
      ok := RefreshHead(importer.blockTree, store);
      if ok {
        NewHeadIsBlock();
      }
    }

    /** The import of a block keeps the whole invariant. */
    method Import(block: Block, signaturesOk: bool) returns (r: ImportResult)
      requires Valid()
      modifies importer`states, importer.blockTree.tree, importer.blockTree.storage
      ensures Valid() && Handled(importer.env, old(importer.Now()), block, signaturesOk, r, importer.Now())
    {
      ghost var k := importer.Now();
      r := importer.OnBlock(block, signaturesOk);
      StillCachedOrLost(importer.env, importer.config, importer.validators, k, importer.blockTree.anchor, block,
                        signaturesOk, r, importer.Now());
    }

    /** The loop of `onBlock` over the attestations, after its two checks. */
    method CountVotes(block: Block, proofs: seq<seq<bool>>, now: nat) returns (r: Option<BlockResult>)
      requires Valid() && SignaturesOk(|importer.validators|, block.body, proofs, true)
      modifies store`known, store`pending
      ensures Valid()
      ensures VotesCounted(importer.blockTree.storage.headers, now, old(store.Votes()), block.body, proofs, r,
                           store.Votes())
    {
      if |block.body| > MAX_ATTESTATIONS_DATA {
        return Some(TooManyAttestations);
      }
      BodyVotersBelow(|importer.validators|, importer.blockTree.storage.headers, now, store.Votes(), block.body, proofs,
                      |block.body|);
      var error := store.OnBody(importer.blockTree.storage.headers, now, block.body, proofs);
      return if error.Some? then Some(BadAttestation(error.value)) else None;
    }

    /** The rest of `onBlock` after the import. */
    method FollowImport(block: Block, proofs: seq<seq<bool>>, now: nat) returns (r: BlockResult)
      requires Valid() && SignaturesOk(|importer.validators|, block.body, proofs, true)
      modifies store`known, store`pending, store`head
      ensures Valid()
      ensures VotesAndHead(importer.blockTree.GetView(), importer.blockTree.tree.justified.hash, now, block.body, proofs,
                           old(store.Votes()), old(store.head), r, store.Votes(), store.head)
    {
      var counted := CountVotes(block, proofs, now);
      if counted.Some? {
        return counted.value;
      }
      var moved := UpdateHead();
      return if moved then HeadUpdated else HeadNotStored;
    }

    /** The number of validators in the state of a block; every stored block has its state, with those of genesis. */
    method CountValidators(root: Root) returns (n: Option<nat>)
      requires Valid()
      ensures n == if root in importer.blockTree.storage.headers then Some(|importer.validators|) else None
      ensures |importer.validators| > 0
    {
      HeadState(importer.env, importer.config, importer.validators, importer.Now());
      if root !in importer.states {
        return None;
      }
      SameValidators(importer.env, importer.config, importer.validators, importer.blockTree.storage.headers,
                     importer.states, importer.blockTree.tree.nodes, importer.blockTree.tree.justified, root);
      return Some(|importer.states[root].validators|);
    }

    /** Validation before the import; without the parent's state there is nothing to validate against. */
    method CheckSignatures(block: Block, proofs: seq<seq<bool>>, verified: bool) returns (signed: bool)
      requires Valid()
      ensures signed <==> SignaturesOk(|importer.validators|, block.body, proofs, verified)
    {
      var n := CountValidators(block.parentRoot);
      signed := ValidateSignatures(if n.Some? then n.value else |importer.validators|, block.body, proofs, verified);
    }

    /**
     * `onBlock`: the block is imported, its votes are counted and the head is updated; each step is made only
     * after the one before it succeeded.
     */
    method OnBlock(block: Block, proofs: seq<seq<bool>>, verified: bool, now: nat) returns (r: BlockResult)
      requires Valid()
      modifies importer`states, importer.blockTree.tree, importer.blockTree.storage
      modifies store`known, store`pending, store`head
      ensures Valid()
      ensures var signed := SignaturesOk(|importer.validators|, block.body, proofs, verified);
              var answer := Answer(importer.env, old(importer.Now()), block, signed);
              && Handled(importer.env, old(importer.Now()), block, signed, answer, importer.Now())
              && if answer != Imported
                 then r == NotImported(answer) && store.Votes() == old(store.Votes()) && store.head == old(store.head)
                 else VotesAndHead(importer.blockTree.GetView(), importer.blockTree.tree.justified.hash, now, block.body,
                                   proofs, old(store.Votes()), old(store.head), r, store.Votes(), store.head)
    {
      var signed := CheckSignatures(block, proofs, verified);
      ghost var k := importer.Now();
      var imported := Import(block, signed);
      AnswerIsExact(importer.env, k, block, signed, imported, importer.Now());
      if imported != Imported {
        return NotImported(imported);
      }
      r := FollowImport(block, proofs, now);
    }

    /** What is checked before a gossiped vote is looked at. */
    method RefuseGossip(bits: seq<bool>, data: AttestationData, verified: bool) returns (r: Option<GossipResult>)
      requires Valid()
      ensures r == if data.target.root !in importer.blockTree.storage.headers then Some(TargetStateNotFound)
                   else if !AllBelow(|importer.validators|, bits) || !verified then Some(DroppedVote)
                   else None
    {
      var n := CountValidators(data.target.root);
      if n.None? {
        return Some(TargetStateNotFound);
      }
      var known := ParticipantsKnown(n.value, bits);
      return if !known || !verified then Some(DroppedVote) else None;
    }

    /** The votes of known validators become pending. */
    method Hold(bits: seq<bool>, data: AttestationData, now: nat) returns (error: Option<AttestationError>)
      requires Valid() && AllBelow(|importer.validators|, bits)
      modifies store`known, store`pending
      ensures Valid()
      ensures error == if Voters(bits) == {} then None
                       else Admitted(importer.blockTree.storage.headers, now, data, false)
      ensures store.Votes() == if error.None? then Cast(old(store.Votes()), Voters(bits), data, false)
                               else old(store.Votes())
    {
      CastVotersBelow(|importer.validators|, store.Votes(), Voters(bits), data, false);
      error := store.OnAggregated(importer.blockTree.storage.headers, now, bits, data, false);
    }

    /**
     * `onGossipAggregatedAttestation`: without the target's state it fails; a vote of an unknown validator or
     * with a wrong signature is dropped in silence; the rest is pending until it is accepted.
     */
    method OnGossipAggregated(bits: seq<bool>, data: AttestationData, verified: bool, now: nat) returns (r: GossipResult)
      requires Valid()
      modifies store`known, store`pending
      ensures Valid()
      ensures GossipHandled(importer.blockTree.storage.headers, |importer.validators|, bits, data, verified, now,
                            old(store.Votes()), r, store.Votes())
    {
      var refused := RefuseGossip(bits, data, verified);
      if refused.Some? {
        return refused.value;
      }
      var error := Hold(bits, data, now);
      return if error.Some? then InvalidVote(error.value) else Pending;
    }

    /** The pending votes become known and keep their voters. */
    method AcceptPending()
      requires Valid()
      modifies store`known, store`pending
      ensures Valid() && store.Votes() == ForkChoiceStores.Accepted(old(store.Votes()))
    {
      AcceptedVotersBelow(|importer.validators|, store.Votes());
      store.AcceptPending();
    }

    /** `acceptNewAttestations`: every pending vote becomes the known one of its validator, and the head follows. */
    method AcceptNewAttestations() returns (ok: bool)
      requires Valid()
      modifies store`known, store`pending, store`head
      ensures Valid() && store.Votes() == ForkChoiceStores.Accepted(old(store.Votes()))
      ensures HeadMoved(importer.blockTree.GetView(), importer.blockTree.tree.justified.hash, Heads(store.known),
                        old(store.head), ok, store.head)
    {
      AcceptPending();
      ok := UpdateHead();
    }

    /** What `updateSafeTarget` asks for, from the invariant. */
    lemma PendingVotersFit()
      requires Valid()
      ensures |store.pending| <= |importer.validators|
      ensures JustifiedOk(importer.blockTree.tree.nodes, importer.blockTree.tree.justified,
                          importer.blockTree.storage.headers)
    {
      AtMostOneVoteEach(|importer.validators|, store.pending.Keys);
      ConsistentJustified(importer.env, importer.config, importer.validators, importer.blockTree.storage.headers,
                          importer.states, importer.blockTree.tree.nodes, importer.blockTree.tree.justified);
    }

    method MoveSafeTarget(count: Option<nat>) returns (ok: bool)
      requires Valid() && |importer.validators| > 0 && (count.Some? ==> count.value == |importer.validators|)
      modifies store`safeTarget
      ensures Valid()
      ensures SafeTargetMoved(importer.blockTree.GetView(), importer.blockTree.tree.justified.hash, Heads(store.pending),
                              count, old(store.safeTarget), ok, store.safeTarget)
    {
      PendingVotersFit();
      ok := RefreshSafeTarget(importer.blockTree, store, count);
    }

    /**
     * `updateSafeTarget`: on every run it fails exactly when the head is no longer stored, and else the safe
     * target is the unique deepest block with two-thirds support among the pending votes.
     */
    method UpdateSafeTarget() returns (ok: bool)
      requires Valid()
      modifies store`safeTarget
      ensures Valid()
      ensures var count := if store.head.root in importer.blockTree.storage.headers then Some(|importer.validators|)
                           else None;
              SafeTargetMoved(importer.blockTree.GetView(), importer.blockTree.tree.justified.hash, Heads(store.pending),
                              count, old(store.safeTarget), ok, store.safeTarget)
    {
      var count := CountValidators(store.head.root);
      ok := MoveSafeTarget(count);
    }

    /** What the walk back from the head can meet, from the invariant. */
    lemma TargetIsKnown(v: View, limit: nat)
      requires Valid() && v == importer.blockTree.GetView()
      ensures ViewOk(v) && v.headers[v.finalized].slot == importer.blockTree.tree.nodes[importer.blockTree.tree.root].slot
      ensures TargetChosen(v, importer.env.build, limit, store.head.root,
                           Target(v.headers, importer.env.build, v.headers[v.finalized].slot, limit, store.head.root))
    {
      TargetIsFoundExactly(v, importer.env.build, limit, store.head.root);
    }

    lemma CanVoteWhileCached(v: View)
      requires Valid() && v == importer.blockTree.GetView()
      requires store.head.root in v.children && importer.blockTree.tree.justified.hash in v.children
      ensures CanVote(v, Max(store.safeTarget.slot, importer.blockTree.tree.justified.slot), store.head.root)
    {
      HeadIsAt();
      CachedCanVote(v, importer.blockTree.tree.justified, store.safeTarget.slot, store.head.root);
    }

    /**
     * `getAttestationTarget` for the head: on every run it finds the nearest justifiable block whenever the client
     * can vote, so in particular while head and justified block are cached; in a debug build only then.
     */
    method ChooseTarget() returns (r: Walked<Checkpoint>)
      requires Valid()
      ensures var v := importer.blockTree.GetView();
              var limit := Max(store.safeTarget.slot, importer.blockTree.tree.justified.slot);
              && TargetChosen(v, importer.env.build, limit, store.head.root, TargetRoot(r))
              && (r.Found? ==> At(v.headers, r.value))
              && (store.head.root in v.children && importer.blockTree.tree.justified.hash in v.children ==> r.Found?)
    {
      var v := importer.blockTree.GetView();
      var justified := importer.blockTree.tree.justified;
      if store.head.root in v.children && justified.hash in v.children {
        CanVoteWhileCached(v);
      }
      TargetIsKnown(v, Max(store.safeTarget.slot, justified.slot));
      r := GetAttestationTarget(v.headers, importer.env.build, v.headers[v.finalized].slot, store.safeTarget,
                                Checkpoint(justified.hash, justified.slot), store.head, None);
    }

    /** With one block, the first update leaves the safe target there. */
    method SettleTarget()
      requires Valid() && store.head.root in importer.blockTree.storage.headers
      requires importer.blockTree.storage.headers == map[store.head.root := Node(0, None)]
      modifies store`safeTarget
      ensures Valid() && importer.Now() == old(importer.Now()) && store.head == old(store.head)
      ensures store.safeTarget == Checkpoint(store.head.root, 0)
    {
      var moved := UpdateSafeTarget();
    }

    /** And the head too. */
    method SettleHead()
      requires Valid() && store.head.root in importer.blockTree.storage.headers
      requires importer.blockTree.storage.headers == map[store.head.root := Node(0, None)]
      modifies store`head
      ensures Valid() && importer.Now() == old(importer.Now()) && store.safeTarget == old(store.safeTarget)
      ensures store.head == Checkpoint(old(store.head.root), 0)
    {
      var moved := UpdateHead();
    }
  }

  /** A client that starts from genesis, as the constructor of the source leaves it. */
  method Start(env: Env, config: nat, validators: seq<nat>) returns (client: Client)
    requires EnvOk(env, validators)
    ensures client.Valid() && client.importer.env == env && client.importer.validators == validators
    ensures client.importer.Now() == GenesisKept(env, config, validators)
    ensures client.store.head == client.store.safeTarget == Checkpoint(GenesisKept(env, config, validators).tree.root, 0)
  {
    client := new Client(env, config, validators);
    client.SettleTarget();
    client.SettleHead();
  }

  /**
   * An input where the client cannot vote: its head is the finalized block 2 at slot 2, on top of the stored block 1 at
   * slot 0, while safe target and justified block are at slot 1 on a fork that finality has pruned.
   */
  lemma TargetBelowFinality()
    ensures var v := View(map[1 := Node(0, None), 2 := Node(2, Some(1))], map[2 := []], map[0 := [1], 2 := [2]], 2);
            && ViewOk(v) && !CanVote(v, 1, 2)
            && Target(v.headers, Debug, 2, 1, 2) == AttestationTargets.Walked.AssertionFailed
  {
    var f: Forest := map[1 := Node(0, None), 2 := Node(2, Some(1))];
    WalkStopsAtAGap();
    assert UpPath(f, 2, 2) == [];
    assert LookBack(f, 1, Some(1), 2) == Some(1) && LookBack(f, 1, Some(2), 3) == Some(1);
  }

  function TargetRoot(r: Walked<Checkpoint>): Walked<Root> {
    match r
    case Found(c) => Found(c.root)
    case MissingHeader => MissingHeader
    case AssertionFailed => AttestationTargets.Walked.AssertionFailed
  }

  lemma HeadState(env: Env, config: nat, validators: seq<nat>, k: Kept)
    requires Consistent(env, config, validators, k.tree.headers, k.states, k.tree.nodes, k.tree.justified)
    ensures k.states.Keys == k.tree.headers.Keys && |validators| > 0
  {
  }

  ghost predicate KeptOk(env: Env, config: nat, validators: seq<nat>, k: Kept, anchor: Root) {
    && TreeOk(k.tree.nodes, k.tree.root) && StoredOk(k.tree.nodes, k.tree.root, k.tree.headers, anchor)
    && Consistent(env, config, validators, k.tree.headers, k.states, k.tree.nodes, k.tree.justified)
  }

  lemma StillCachedOrLost(env: Env, config: nat, validators: seq<nat>, k: Kept, anchor: Root, block: Block,
                          signaturesOk: bool, r: ImportResult, k': Kept)
    requires KeptOk(env, config, validators, k, anchor) && KeptOk(env, config, validators, k', anchor)
    requires CachedOrLost(env, k.tree) && Handled(env, k, block, signaturesOk, r, k')
    ensures CachedOrLost(env, k'.tree)
  {
    ConsistentJustified(env, config, validators, k'.tree.headers, k'.states, k'.tree.nodes, k'.tree.justified);
    JustifiedIsCachedOrLost(env, config, validators, k, anchor, block, signaturesOk, r, k');
  }
}
