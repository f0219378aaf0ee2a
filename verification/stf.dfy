/**
 * The state transition function: slot advance, block header, attestations. Every operation is a
 * method that works as the source does, proved equal to a function of its inputs; the functions
 * are what the run theorems of the other modules are about.
 *
 * The failed assertion of `isJustifiableSlot`, which a debug build can reach, is the outcome
 * Err(AssertionFailed). Every other failed assertion, an uncaught exception, an unsigned wrap-around or
 * a division by zero of the source is the outcome Err(Fault).
 */
module StateTransition {
  import opened Types
  import opened Justifiable
  import W = JustifiedWindow
  import opened AggregationBits
  import O = RootOrder
  import V = VoteTable

  datatype Header = Header(slot: nat, proposer: nat, parentRoot: Root, stateRoot: Root, bodyRoot: Root)

  datatype Block = Block(slot: nat, proposer: nat, parentRoot: Root, stateRoot: Root, body: seq<Attestation>)

  datatype State = State(
    config: nat,
    slot: nat,
    header: Header,
    justified: Checkpoint,
    finalized: Checkpoint,
    history: seq<Root>,
    justifiedSlots: seq<bool>,
    validators: seq<nat>,
    pendingRoots: seq<Root>,
    pendingVotes: seq<bool>)

  /** `sszHash` on states, headers and bodies, and the build, which decides what happens below finality. */
  datatype Env = Env(
    stateRoot: State -> Root,
    headerRoot: Header -> Root,
    bodyRoot: seq<Attestation> -> Root,
    build: Build)

  datatype Error =
    | InvalidSlot
    | InvalidProposer
    | ParentRootDoesntMatch
    | StateRootDoesntMatch
    | InvalidVoteSourceSlot
    | InvalidVoteTargetSlot
    | InvalidVoter
    | AssertionFailed
    | Fault

  datatype Outcome<+T> = Ok(value: T) | Err(error: Error) {
    predicate IsFailure() { Err? }
    function PropagateFailure<U>(): Outcome<U> requires Err? { Err(error) }
    function Extract(): T requires Ok? { value }
  }

  function GetHeader(env: Env, block: Block): Header {
    Header(block.slot, block.proposer, block.parentRoot, block.stateRoot, env.bodyRoot(block.body))
  }

  /** The hash of a block is the hash of its header. */
  function BlockRoot(env: Env, block: Block): Root {
    env.headerRoot(GetHeader(env, block))
  }

  function GenesisState(env: Env, config: nat, validators: seq<nat>): State {
    State(config, 0, Header(0, 0, ZERO_ROOT, ZERO_ROOT, env.bodyRoot([])),
          Checkpoint(ZERO_ROOT, 0), Checkpoint(ZERO_ROOT, 0), [], [], validators, [], [])
  }

  function GenesisBlock(env: Env, state: State): Block {
    Block(state.slot, 0, ZERO_ROOT, env.stateRoot(state), [])
  }

  // ----- slots

  /** One pass of the slot loop: cache the state root in an unfinished header, then count the slot. */
  function AdvanceSlot(env: Env, s: State): State {
    var header := if s.header.stateRoot == ZERO_ROOT then s.header.(stateRoot := env.stateRoot(s)) else s.header;
    s.(header := header, slot := s.slot + 1)
  }

  function AdvanceSlots(env: Env, s: State, slot: nat): State
    requires s.slot <= slot
    decreases slot - s.slot
  {
    if s.slot == slot then s else AdvanceSlots(env, AdvanceSlot(env, s), slot)
  }

  function SlotsOutcome(env: Env, s: State, slot: nat): Outcome<State> {
    if s.slot >= slot then Err(InvalidSlot) else Ok(AdvanceSlots(env, s, slot))
  }

  method ProcessSlots(env: Env, state: State, slot: nat) returns (r: Outcome<State>)
    ensures r == SlotsOutcome(env, state, slot)
  {
    if state.slot >= slot {
      return Err(InvalidSlot);
    }
    var s := state;
    while s.slot < slot
      invariant s.slot <= slot
      invariant AdvanceSlots(env, s, slot) == AdvanceSlots(env, state, slot)
    {
      if s.header.stateRoot == ZERO_ROOT {
        s := s.(header := s.header.(stateRoot := env.stateRoot(s)));
      }
      s := s.(slot := s.slot + 1);
    }
    return Ok(s);
  }

  // ----- block header

  function ZeroRoots(k: nat): seq<Root> {
    seq(k, _ => ZERO_ROOT)
  }

  /** The first failed check of a block header, in the order of the source. */
  function HeaderError(env: Env, s: State, block: Block): Option<Error> {
    if block.slot != s.slot then Some(InvalidSlot)
    else if block.slot <= s.header.slot then Some(InvalidSlot)
    else if |s.validators| == 0 then Some(Fault)
    else if block.proposer != block.slot % |s.validators| then Some(InvalidProposer)
    else if block.parentRoot != env.headerRoot(s.header) then Some(ParentRootDoesntMatch)
    else None
  }

  function HeaderOutcome(env: Env, s: State, block: Block): Outcome<State> {
    var error := HeaderError(env, s, block);
    if error.Some? then Err(error.value)
    else
      var parentRoot := env.headerRoot(s.header);
      var genesisParent := s.header.slot == 0;
      Ok(s.(
         justified := if genesisParent then s.justified.(root := parentRoot) else s.justified,
         finalized := if genesisParent then s.finalized.(root := parentRoot) else s.finalized,
         history := s.history + [parentRoot] + ZeroRoots(block.slot - s.header.slot - 1),
         justifiedSlots := W.ExtendToSlot(s.justifiedSlots, s.finalized.slot, block.slot - 1),
         header := GetHeader(env, block).(stateRoot := ZERO_ROOT)))
  }

  method ProcessBlockHeader(env: Env, state: State, block: Block) returns (r: Outcome<State>)
    ensures r == HeaderOutcome(env, state, block)
  {
    var parent := state.header;
    var parentRoot := env.headerRoot(parent);
    if block.slot != state.slot {
      return Err(InvalidSlot);
    }
    if block.slot <= parent.slot {
      return Err(InvalidSlot);
    }
    if |state.validators| == 0 {
      return Err(Fault);
    }
    if block.proposer != block.slot % |state.validators| {
      return Err(InvalidProposer);
    }
    if block.parentRoot != parentRoot {
      return Err(ParentRootDoesntMatch);
    }
    var s := state;
    if parent.slot == 0 {
      s := s.(justified := s.justified.(root := parentRoot), finalized := s.finalized.(root := parentRoot));
    }
    var emptySlots := block.slot - parent.slot - 1;
    var history := s.history + [parentRoot];
    var i := 0;
    while i < emptySlots
      invariant 0 <= i <= emptySlots
      invariant history == s.history + [parentRoot] + ZeroRoots(i)
    {
      history := history + [ZERO_ROOT];
      i := i + 1;
    }
    s := s.(history := history,
            justifiedSlots := W.ExtendToSlot(s.justifiedSlots, s.finalized.slot, block.slot - 1),
            header := GetHeader(env, block).(stateRoot := ZERO_ROOT));
    return Ok(s);
  }

  // ----- attestations

  /** The part of the state that the attestation loop works on. */
  datatype Tally = Tally(justified: Checkpoint, finalized: Checkpoint, bits: seq<bool>, pending: V.Justifications)

  /** The last slot in [lo, hi) of every root that occurs there. */
  function RootToSlot(history: seq<Root>, lo: nat, hi: nat): map<Root, nat>
    requires hi <= |history|
    decreases hi
  {
    if hi <= lo then map[]
    else RootToSlot(history, lo, hi - 1)[history[hi - 1] := hi - 1]
  }

  /** The index knows exactly the roots that occur, each with its last slot. */
  lemma {:induction false} RootToSlotIsLast(history: seq<Root>, lo: nat, hi: nat, r: Root)
    requires hi <= |history|
    ensures var m := RootToSlot(history, lo, hi);
            && (r in m <==> exists s :: lo <= s < hi && history[s] == r)
            && (r in m ==> lo <= m[r] < hi && history[m[r]] == r && forall s | m[r] < s < hi :: history[s] != r)
    decreases hi
  {
    if lo < hi {
      RootToSlotIsLast(history, lo, hi - 1, r);
    }
  }

  method IndexRoots(history: seq<Root>, finalizedSlot: nat) returns (m: map<Root, nat>)
    ensures m == RootToSlot(history, finalizedSlot + 1, |history|)
  {
    m := map[];
    var slot := finalizedSlot + 1;
    if slot < |history| {
      while slot < |history|
        invariant finalizedSlot + 1 <= slot <= |history|
        invariant m == RootToSlot(history, finalizedSlot + 1, slot)
      {
        m := m[history[slot] := slot];
        slot := slot + 1;
      }
    }
  }

  /** The checks after the two status look-ups: roots and order. */
  predicate VoteMatches(history: seq<Root>, source: Checkpoint, target: Checkpoint)
    requires source.slot < |history| && target.slot < |history|
  {
    && source.root != ZERO_ROOT && target.root != ZERO_ROOT
    && source.root == history[source.slot]
    && target.root == history[target.slot]
    && source.slot < target.slot
  }

  function NoVotes(n: nat): seq<bool> {
    seq(n, _ => false)
  }

  function RowOf(t: Tally, n: nat, root: Root): seq<bool> {
    if root in t.pending then t.pending[root] else NoVotes(n)
  }

  ghost predicate KnownVoters(n: nat, votes: seq<bool>) {
    forall v | v in Voters(votes) :: v < n
  }

  function PrunePending(pending: V.Justifications, rootToSlot: map<Root, nat>, finalizedSlot: nat): V.Justifications
    requires pending.Keys <= rootToSlot.Keys
  {
    map r | r in pending && rootToSlot[r] > finalizedSlot :: pending[r]
  }

  /** Finalization of `source` after its target was justified. */
  ghost function FinalizeOutcome(rootToSlot: map<Root, nat>, t: Tally, source: Checkpoint): Outcome<Tally> {
    if source.slot < t.finalized.slot then Err(Fault)
    else if source.slot == t.finalized.slot then Ok(t.(finalized := source))
    else if !(t.pending.Keys <= rootToSlot.Keys) then Err(Fault)
    else
      Ok(t.(finalized := source,
            bits := W.ShiftWindow(t.bits, source.slot - t.finalized.slot),
            pending := PrunePending(t.pending, rootToSlot, source.slot)))
  }

  /** The effect of a vote whose target reached two thirds. */
  ghost function JustifyOutcome(env: Env, rootToSlot: map<Root, nat>, t: Tally,
                                source: Checkpoint, target: Checkpoint): Outcome<Tally> {
    var bits := W.WithJustified(t.bits, t.finalized.slot, target.slot);
    if bits.None? then Err(Fault)
    else
      var t' := t.(justified := target, bits := bits.value, pending := t.pending - {target.root});
      var any := ScanFrom(env.build, t.finalized.slot, source.slot + 1, target.slot);
      if any.None? then Err(AssertionFailed)
      else if any.value then Ok(t')
      else FinalizeOutcome(rootToSlot, t', source)
  }

  /** A vote that passed every filter: record it, and justify its target at two thirds. */
  ghost function CountOutcome(env: Env, n: nat, rootToSlot: map<Root, nat>, t: Tally, a: Attestation): Outcome<Tally> {
    var target := a.data.target;
    var row := RowOf(t, n, target.root);
    if !KnownVoters(|row|, a.bits) then Err(InvalidVoter)
    else
      var row' := V.MergeVotes(row, a.bits);
      var t' := t.(pending := t.pending[target.root := row']);
      if 3 * |Voters(row')| >= 2 * n
      then JustifyOutcome(env, rootToSlot, t', a.data.source, target)
      else Ok(t')
  }

  ghost function AttestOutcome(env: Env, n: nat, history: seq<Root>, rootToSlot: map<Root, nat>,
                               t: Tally, a: Attestation): Outcome<Tally> {
    var source, target := a.data.source, a.data.target;
    if source.slot >= |history| then Err(InvalidVoteSourceSlot)
    else if target.slot >= |history| then Err(InvalidVoteTargetSlot)
    else
      var sourceJustified := W.IsSlotJustified(t.bits, t.finalized.slot, source.slot);
      if sourceJustified.None? then Err(Fault)
      else if !sourceJustified.value then Ok(t)
      else
        var targetJustified := W.IsSlotJustified(t.bits, t.finalized.slot, target.slot);
        if targetJustified.None? then Err(Fault)
        else if targetJustified.value then Ok(t)
        else if !VoteMatches(history, source, target) then Ok(t)
        else
          var justifiable := IsJustifiableSlot(env.build, t.finalized.slot, target.slot);
          if justifiable.None? then Err(AssertionFailed)
          else if !justifiable.value then Ok(t)
          else CountOutcome(env, n, rootToSlot, t, a)
  }

  /** The attestations of one block, in order. */
  ghost function AttestAllOutcome(env: Env, n: nat, history: seq<Root>, rootToSlot: map<Root, nat>,
                                  t: Tally, atts: seq<Attestation>): Outcome<Tally>
  {
    if atts == [] then Ok(t)
    else
      var front := AttestAllOutcome(env, n, history, rootToSlot, t, atts[..|atts| - 1]);
      if front.Err? then front
      else AttestOutcome(env, n, history, rootToSlot, front.value, atts[|atts| - 1])
  }

  /** The tally flattened back into the state. */
  ghost function WriteBack(s: State, n: nat, t: Tally): Outcome<State> {
    if !V.RowsOfSize(t.pending, n) then Err(Fault)
    else
      var roots := O.SortedRoots(t.pending.Keys);
      assert forall q | q in roots :: q in O.ToSet(roots);
      Ok(s.(justified := t.justified,
            finalized := t.finalized,
            justifiedSlots := t.bits,
            pendingRoots := roots,
            pendingVotes := V.FlatRows(t.pending, roots)))
  }

  ghost function WriteOutcome(s: State, n: nat, r: Outcome<Tally>): Outcome<State> {
    if r.Err? then Err(r.error) else WriteBack(s, n, r.value)
  }

  /** The flat lists have the size the validators call for. */
  predicate FlatSizeOk(s: State) {
    |s.pendingRoots| > 0 ==> |s.pendingVotes| == |s.pendingRoots| * |s.validators|
  }

  /** What the attestation loop starts from. */
  ghost function TallyOf(s: State): Tally
    requires FlatSizeOk(s)
  {
    Tally(s.justified, s.finalized, s.justifiedSlots,
          if |s.pendingRoots| > 0 then V.Unflatten(s.pendingRoots, s.pendingVotes, |s.validators|) else map[])
  }

  /** The loop over the attestations of a block. */
  ghost function LoopOutcome(env: Env, s: State, atts: seq<Attestation>): Outcome<Tally>
    requires FlatSizeOk(s)
  {
    AttestAllOutcome(env, |s.validators|, s.history, RootToSlot(s.history, s.finalized.slot + 1, |s.history|),
                     TallyOf(s), atts)
  }

  ghost function AttestationsOutcome(env: Env, s: State, atts: seq<Attestation>): Outcome<State> {
    if !FlatSizeOk(s) then Err(Fault) else WriteOutcome(s, |s.validators|, LoopOutcome(env, s, atts))
  }

  /** Keeps the pending roots whose last slot is above finality; None is the exception of `at`. */
  method RetainAbove(pending: V.Justifications, rootToSlot: map<Root, nat>, finalizedSlot: nat)
    returns (r: Option<V.Justifications>)
    ensures r.Some? <==> pending.Keys <= rootToSlot.Keys
    ensures r.Some? ==> r.value == PrunePending(pending, rootToSlot, finalizedSlot)
  {
    var kept: V.Justifications := map[];
    var rest := pending.Keys;
    while rest != {}
      invariant rest <= pending.Keys && pending.Keys - rest <= rootToSlot.Keys
      invariant kept == map q | q in pending && q !in rest && rootToSlot[q] > finalizedSlot :: pending[q]
      decreases rest
    {
      var root :| root in rest;
      if root !in rootToSlot {
        return None;
      }
      if rootToSlot[root] > finalizedSlot {
        kept := kept[root := pending[root]];
      }
      rest := rest - {root};
    }
    return Some(kept);
  }

  /** One pass of the attestation loop. */
  method ProcessAttestation(env: Env, n: nat, history: seq<Root>, rootToSlot: map<Root, nat>,
                            tally: Tally, a: Attestation) returns (r: Outcome<Tally>)
    ensures r == AttestOutcome(env, n, history, rootToSlot, tally, a)
  {
    var t := tally;
    var source, target := a.data.source, a.data.target;
    if source.slot >= |history| {
      return Err(InvalidVoteSourceSlot);
    }
    if target.slot >= |history| {
      return Err(InvalidVoteTargetSlot);
    }
    var sourceJustified := W.IsSlotJustified(t.bits, t.finalized.slot, source.slot);
    if sourceJustified.None? {
      return Err(Fault);
    }
    if !sourceJustified.value {
      return Ok(t);
    }
    var targetJustified := W.IsSlotJustified(t.bits, t.finalized.slot, target.slot);
    if targetJustified.None? {
      return Err(Fault);
    }
    if targetJustified.value {
      return Ok(t);
    }
    if source.root == ZERO_ROOT || target.root == ZERO_ROOT {
      return Ok(t);
    }
    if source.root != history[source.slot] {
      return Ok(t);
    }
    if target.root != history[target.slot] {
      return Ok(t);
    }
    if target.slot <= source.slot {
      return Ok(t);
    }
    var justifiable := IsJustifiableSlot(env.build, t.finalized.slot, target.slot);
    if justifiable.None? {
      return Err(AssertionFailed);
    }
    if !justifiable.value {
      return Ok(t);
    }
    r := TallyVote(env, n, rootToSlot, t, a);
  }

  /** The second half of the loop body: record the votes, justify, finalize. */
  method TallyVote(env: Env, n: nat, rootToSlot: map<Root, nat>, tally: Tally, a: Attestation)
    returns (r: Outcome<Tally>)
    ensures r == CountOutcome(env, n, rootToSlot, tally, a)
  {
    var t := tally;
    var source, target := a.data.source, a.data.target;
    if target.root !in t.pending {
      t := t.(pending := t.pending[target.root := NoVotes(n)]);
    }
    var row := V.RecordVotes(t.pending[target.root], a.bits);
    if row.None? {
      return Err(InvalidVoter);
    }
    t := t.(pending := t.pending[target.root := row.value]);
    var count := V.CountVotes(row.value);
    assert t == tally.(pending := tally.pending[target.root := row.value]);
    if 3 * count >= 2 * n {
      var bits := W.WithJustified(t.bits, t.finalized.slot, target.slot);
      if bits.None? {
        return Err(Fault);
      }
      t := t.(justified := target, bits := bits.value, pending := t.pending - {target.root});
      var any := ScanBetween(env.build, t.finalized.slot, source.slot, target.slot);
      if any.None? {
        return Err(AssertionFailed);
      }
      if !any.value {
        var oldFinalizedSlot := t.finalized.slot;
        t := t.(finalized := source);
        if source.slot < oldFinalizedSlot {
          return Err(Fault);
        }
        var delta := source.slot - oldFinalizedSlot;
        if delta > 0 {
          var kept := RetainAbove(t.pending, rootToSlot, source.slot);
          if kept.None? {
            return Err(Fault);
          }
          t := t.(bits := W.ShiftWindow(t.bits, delta), pending := kept.value);
        }
      }
    }
    return Ok(t);
  }

  lemma AttestAllStep(env: Env, n: nat, history: seq<Root>, rootToSlot: map<Root, nat>,
                      tally: Tally, atts: seq<Attestation>, i: nat, t: Tally)
    requires i < |atts| && AttestAllOutcome(env, n, history, rootToSlot, tally, atts[..i]) == Ok(t)
    ensures AttestAllOutcome(env, n, history, rootToSlot, tally, atts[..i + 1])
         == AttestOutcome(env, n, history, rootToSlot, t, atts[i])
  {
    assert atts[..i + 1][..i] == atts[..i];
  }

  /** The attestation loop. */
  method ProcessEach(env: Env, n: nat, history: seq<Root>, rootToSlot: map<Root, nat>,
                     tally: Tally, atts: seq<Attestation>) returns (r: Outcome<Tally>)
    ensures r == AttestAllOutcome(env, n, history, rootToSlot, tally, atts)
  {
    var t := tally;
    for i := 0 to |atts|
      invariant AttestAllOutcome(env, n, history, rootToSlot, tally, atts[..i]) == Ok(t)
    {
      AttestAllStep(env, n, history, rootToSlot, tally, atts, i, t);
      var step := ProcessAttestation(env, n, history, rootToSlot, t, atts[i]);
      if step.Err? {
        FailedPrefix(env, n, history, rootToSlot, tally, atts, i + 1);
        return step;
      }
      t := step.value;
    }
    assert atts[..|atts|] == atts;
    return Ok(t);
  }

  /** The tally that the flat lists stand for; None is the failed size assertion. */
  method ReadTally(state: State) returns (t: Option<Tally>)
    ensures t.Some? <==> FlatSizeOk(state)
    ensures t.Some? ==> t.value == TallyOf(state)
  {
    var pending: V.Justifications := map[];
    if |state.pendingRoots| > 0 {
      if |state.pendingVotes| != |state.pendingRoots| * |state.validators| {
        return None;
      }
      pending := V.RebuildTable(state.pendingRoots, state.pendingVotes, |state.validators|);
    }
    return Some(Tally(state.justified, state.finalized, state.justifiedSlots, pending));
  }

  method WriteTally(state: State, t: Tally) returns (r: Outcome<State>)
    ensures r == WriteBack(state, |state.validators|, t)
  {
    var flat := V.FlattenTable(t.pending, |state.validators|);
    if flat.None? {
      return Err(Fault);
    }
    return Ok(state.(justified := t.justified, finalized := t.finalized, justifiedSlots := t.bits,
                     pendingRoots := flat.value.0, pendingVotes := flat.value.1));
  }

  method ProcessAttestations(env: Env, state: State, atts: seq<Attestation>) returns (r: Outcome<State>)
    ensures r == AttestationsOutcome(env, state, atts)
  {
    var tally := ReadTally(state);
    if tally.None? {
      return Err(Fault);
    }
    var done := LoopAttestations(env, state, tally.value, atts);
    r := FinishTally(state, done);
  }

  method LoopAttestations(env: Env, state: State, tally: Tally, atts: seq<Attestation>) returns (r: Outcome<Tally>)
    requires FlatSizeOk(state) && tally == TallyOf(state)
    ensures r == LoopOutcome(env, state, atts)
  {
    var rootToSlot := IndexRoots(state.history, state.finalized.slot);
    r := ProcessEach(env, |state.validators|, state.history, rootToSlot, tally, atts);
  }

  method FinishTally(state: State, done: Outcome<Tally>) returns (r: Outcome<State>)
    ensures r == WriteOutcome(state, |state.validators|, done)
  {
    if done.Err? {
      return Err(done.error);
    }
    r := WriteTally(state, done.value);
  }

  lemma {:induction false} FailedPrefix(env: Env, n: nat, history: seq<Root>, rootToSlot: map<Root, nat>,
                                        t: Tally, atts: seq<Attestation>, k: nat)
    requires k <= |atts| && AttestAllOutcome(env, n, history, rootToSlot, t, atts[..k]).Err?
    ensures AttestAllOutcome(env, n, history, rootToSlot, t, atts)
         == AttestAllOutcome(env, n, history, rootToSlot, t, atts[..k])
    decreases |atts|
  {
    if k == |atts| {
      assert atts[..k] == atts;
    } else {
      assert atts[..|atts| - 1][..k] == atts[..k];
      FailedPrefix(env, n, history, rootToSlot, t, atts[..|atts| - 1], k);
    }
  }

  // ----- the whole transition

  ghost function BlockOutcome(env: Env, s: State, block: Block): Outcome<State> {
    var s' :- HeaderOutcome(env, s, block);
    AttestationsOutcome(env, s', block.body)
  }

  ghost function TransitionOutcome(env: Env, block: Block, parent: State, checkStateRoot: bool): Outcome<State> {
    var s :- SlotsOutcome(env, parent, block.slot);
    var post :- BlockOutcome(env, s, block);
    if checkStateRoot && block.stateRoot != env.stateRoot(post) then Err(StateRootDoesntMatch) else Ok(post)
  }

  method ApplyBlock(env: Env, block: Block, parentState: State, checkStateRoot: bool) returns (r: Outcome<State>)
    ensures r == TransitionOutcome(env, block, parentState, checkStateRoot)
  {
    var slots := ProcessSlots(env, parentState, block.slot);
    if slots.Err? {
      return slots;
    }
    var header := ProcessBlockHeader(env, slots.value, block);
    if header.Err? {
      return header;
    }
    var post := ProcessAttestations(env, header.value, block.body);
    if post.Err? {
      return post;
    }
    if checkStateRoot {
      var stateRoot := env.stateRoot(post.value);
      if block.stateRoot != stateRoot {
        return Err(StateRootDoesntMatch);
      }
    }
    return post;
  }

  /** The state after a chain of blocks, each accepted with its state root checked. */
  ghost function Run(env: Env, genesis: State, blocks: seq<Block>): Outcome<State> {
    if blocks == [] then Ok(genesis)
    else
      var s :- Run(env, genesis, blocks[..|blocks| - 1]);
      TransitionOutcome(env, blocks[|blocks| - 1], s, true)
  }
}
