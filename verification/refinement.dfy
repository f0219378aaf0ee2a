/**
 * The transition function refines the ledger: on every chain accepted from genesis the windowed
 * bitfield, the pruned vote table and the two flat lists say exactly what the log of counted votes
 * says, no look-up ever fails, and the safety of the ledger carries over.
 */
module Refinement {
  import opened Types
  import opened Justifiable
  import opened StateTransition
  import W = JustifiedWindow
  import opened AggregationBits
  import O = RootOrder
  import V = VoteTable
  import L = Ledgers

  ghost predicate Collide(env: Env, a: Header, b: Header) {
    env.headerRoot(a) == env.headerRoot(b)
  }

  /** Headers with equal hashes are equal. */
  ghost predicate CollisionFree(env: Env) {
    forall a, b :: Collide(env, a, b) ==> a == b
  }

  function VoteOf(a: Attestation): L.Vote {
    L.Vote(a.data.source, a.data.target, Voters(a.bits))
  }

  function VotesOf(atts: seq<Attestation>): seq<L.Vote> {
    seq(|atts|, i requires 0 <= i < |atts| => VoteOf(atts[i]))
  }

  function CastFailure(e: L.CastError): Error {
    match e
    case SourceOutOfRange => InvalidVoteSourceSlot
    case TargetOutOfRange => InvalidVoteTargetSlot
    case UnknownVoter => InvalidVoter
    case BelowFinality => AssertionFailed
  }

  // ----- the relation

  /** Some counted vote for `root` still waits for its target to be justified. */
  ghost predicate Awaiting(n: nat, l: L.Ledger, root: Root) {
    exists k :: 0 <= k < |l.log| && l.log[k].target.root == root && !L.IsJustified(n, l, l.log[k].target.slot)
  }

  /** What the table says about one root. */
  ghost predicate RowOk(n: nat, l: L.Ledger, table: V.Justifications, r: Root) {
    && (r in table <==> Awaiting(n, l, r))
    && (r in table ==> |table[r]| == n && Voters(table[r]) == L.Supporters(l.log, r))
  }

  ghost predicate PendingMatches(n: nat, l: L.Ledger, table: V.Justifications) {
    forall r :: RowOk(n, l, table, r)
  }

  ghost predicate WindowMatches(n: nat, l: L.Ledger, bits: seq<bool>) {
    && |bits| == |l.history| - 1 - l.finalized.slot
    && forall s | 0 <= s < |l.history| :: W.Justified(bits, l.finalized.slot, s) <==> L.IsJustified(n, l, s)
  }

  ghost predicate TallyMatches(n: nat, l: L.Ledger, t: Tally) {
    && t.justified == l.justified && t.finalized == l.finalized
    && WindowMatches(n, l, t.bits)
    && PendingMatches(n, l, t.pending)
  }

  /** The latest-slot index covers every slot above finality. */
  ghost predicate Indexed(l: L.Ledger, rootToSlot: map<Root, nat>) {
    forall s | l.finalized.slot < s < |l.history| && l.history[s] != ZERO_ROOT ::
      l.history[s] in rootToSlot && rootToSlot[l.history[s]] == s
  }

  // ----- one vote

  lemma AwaitingSlot(n: nat, l: L.Ledger, root: Root) returns (s: nat)
    requires L.LogSound(n, l) && Awaiting(n, l, root)
    ensures l.finalized.slot < s < |l.history| && l.history[s] == root != ZERO_ROOT
    ensures !L.IsJustified(n, l, s)
  {
    var k :| 0 <= k < |l.log| && l.log[k].target.root == root && !L.IsJustified(n, l, l.log[k].target.slot);
    s := l.log[k].target.slot;
  }

  /** The row that the vote is added to holds exactly the voters counted so far. */
  lemma RowMatches(n: nat, l: L.Ledger, t: Tally, v: L.Vote)
    requires L.Sound(n, l) && TallyMatches(n, l, t) && L.Countable(n, l, v)
    ensures |RowOf(t, n, v.target.root)| == n
    ensures Voters(RowOf(t, n, v.target.root)) == L.Supporters(l.log, v.target.root)
  {
    var root := v.target.root;
    assert RowOk(n, l, t.pending, root);
    forall k | 0 <= k < |l.log| && l.log[k].target.root == root ensures Awaiting(n, l, root) {
      assert l.log[k].target.slot == v.target.slot;
    }
    if root !in t.pending {
      L.NoVotesNoSupporters(l.log, root);
    }
  }

  /** After the vote only the status of its target can differ. */
  lemma OtherSlotsKeepStatus(n: nat, l: L.Ledger, v: L.Vote, l': L.Ledger, s: nat)
    requires L.NoRepeats(l.history) && L.OnChain(l, v.target)
    requires l'.history == l.history && l'.log == l.log + [v] && l'.finalized == l.finalized
    requires s != v.target.slot
    ensures L.IsJustified(n, l', s) <==> L.IsJustified(n, l, s)
  {
    if s < |l.history| {
      L.SupportersAppend(l.log, v, l.history[s]);
    }
  }

  /** Which roots wait after the vote, in terms of those that waited before. */
  lemma VotedAwaiting(n: nat, l: L.Ledger, v: L.Vote, l': L.Ledger)
    requires L.NoRepeats(l.history) && L.LogSound(n, l) && L.OnChain(l, v.target)
    requires l'.history == l.history && l'.log == l.log + [v] && l'.finalized == l.finalized
    ensures Awaiting(n, l', v.target.root) <==> !L.IsJustified(n, l', v.target.slot)
  {
    if !L.IsJustified(n, l', v.target.slot) {
      assert l'.log[|l.log|] == v;
    } else {
      forall k | 0 <= k < |l'.log| && l'.log[k].target.root == v.target.root
        ensures L.IsJustified(n, l', l'.log[k].target.slot)
      {
        if k < |l.log| { assert l'.log[k] == l.log[k]; assert l.log[k].target.slot == v.target.slot; }
      }
    }
  }

  lemma OthersAwaiting(n: nat, l: L.Ledger, v: L.Vote, l': L.Ledger, root: Root)
    requires L.NoRepeats(l.history) && L.LogSound(n, l) && root != v.target.root
    requires L.OnChain(l, v.target) && !L.IsJustified(n, l, v.target.slot)
    requires l'.history == l.history && l'.log == l.log + [v] && l'.finalized == l.finalized
    ensures Awaiting(n, l', root) <==> Awaiting(n, l, root)
  {
    if Awaiting(n, l', root) {
      var k :| 0 <= k < |l'.log| && l'.log[k].target.root == root && !L.IsJustified(n, l', l'.log[k].target.slot);
      assert l'.log[k] == l.log[k];
      OtherSlotsKeepStatus(n, l, v, l', l.log[k].target.slot);
    }
    if Awaiting(n, l, root) {
      var k :| 0 <= k < |l.log| && l.log[k].target.root == root && !L.IsJustified(n, l, l.log[k].target.slot);
      assert l'.log[k] == l.log[k];
      OtherSlotsKeepStatus(n, l, v, l', l.log[k].target.slot);
    }
  }

  lemma AwaitingAfterVote(n: nat, l: L.Ledger, v: L.Vote, l': L.Ledger, root: Root)
    requires L.NoRepeats(l.history) && L.LogSound(n, l)
    requires L.OnChain(l, v.target) && !L.IsJustified(n, l, v.target.slot)
    requires l'.history == l.history && l'.log == l.log + [v] && l'.finalized == l.finalized
    ensures Awaiting(n, l', root)
       <==> if root == v.target.root then !L.IsJustified(n, l', v.target.slot) else Awaiting(n, l, root)
  {
    if root == v.target.root {
      VotedAwaiting(n, l, v, l');
    } else {
      OthersAwaiting(n, l, v, l', root);
    }
  }

  /** Recording the vote, before finality is looked at: the row is stored, or dropped at a quorum. */
  lemma RecordMatches(n: nat, l: L.Ledger, pending: V.Justifications, v: L.Vote,
                      l': L.Ledger, row: seq<bool>, table: V.Justifications)
    requires L.NoRepeats(l.history) && L.LogSound(n, l)
    requires PendingMatches(n, l, pending) && L.Countable(n, l, v)
    requires l'.history == l.history && l'.log == l.log + [v] && l'.finalized == l.finalized
    requires |row| == n && Voters(row) == L.Supporters(l'.log, v.target.root)
    requires table == if L.IsJustified(n, l', v.target.slot) then pending - {v.target.root}
                      else pending[v.target.root := row]
    ensures PendingMatches(n, l', table)
  {
    forall r ensures RowOk(n, l', table, r) {
      assert RowOk(n, l, pending, r);
      AwaitingAfterVote(n, l, v, l', r);
      L.SupportersAppend(l.log, v, r);
    }
  }

  /** Marking the target gives the window of the new ledger. */
  lemma MarkMatches(n: nat, l: L.Ledger, v: L.Vote, l': L.Ledger, bits: seq<bool>)
    requires L.NoRepeats(l.history) && WindowMatches(n, l, bits) && L.OnChain(l, v.target)
    requires l'.history == l.history && l'.log == l.log + [v] && l'.finalized == l.finalized
    requires !L.IsJustified(n, l, v.target.slot)
    ensures L.IsJustified(n, l', v.target.slot) ==>
              var m := W.WithJustified(bits, l.finalized.slot, v.target.slot);
              m.Some? && WindowMatches(n, l', m.value)
    ensures !L.IsJustified(n, l', v.target.slot) ==> WindowMatches(n, l', bits)
  {
    forall s: nat | s < |l.history| && s != v.target.slot
      ensures L.IsJustified(n, l', s) <==> L.IsJustified(n, l, s)
    {
      OtherSlotsKeepStatus(n, l, v, l', s);
    }
  }

  /** Moving finality forward rebases the window. */
  lemma AdvanceWindow(n: nat, l: L.Ledger, bits: seq<bool>, source: Checkpoint, l': L.Ledger)
    requires WindowMatches(n, l, bits)
    requires l.finalized.slot < source.slot < |l.history| && l' == l.(finalized := source)
    ensures WindowMatches(n, l', W.ShiftWindow(bits, source.slot - l.finalized.slot))
  {
    var delta := source.slot - l.finalized.slot;
    W.ShiftKeepsStatus(bits, l.finalized.slot, delta);
    assert l.finalized.slot + delta == l'.finalized.slot;
    forall s: nat | s < |l.history|
      ensures W.Justified(W.ShiftWindow(bits, delta), l'.finalized.slot, s) <==> L.IsJustified(n, l', s)
    {
      assert W.Justified(bits, l.finalized.slot, s) <==> L.IsJustified(n, l, s);
    }
  }

  /** A waiting root keeps waiting exactly when its slot is above the new boundary. */
  lemma AdvanceAwaiting(n: nat, l: L.Ledger, source: Checkpoint, l': L.Ledger, s: nat)
    requires L.NoRepeats(l.history) && L.LogSound(n, l)
    requires l.finalized.slot < source.slot && l' == l.(finalized := source)
    requires s < |l.history| && l.history[s] != ZERO_ROOT
    ensures Awaiting(n, l', l.history[s]) <==> Awaiting(n, l, l.history[s]) && s > source.slot
  {
    forall k | 0 <= k < |l.log| && l.log[k].target.root == l.history[s]
      ensures l.log[k].target.slot == s
    {
    }
    if Awaiting(n, l, l.history[s]) && s > source.slot {
      var k :| 0 <= k < |l.log| && l.log[k].target.root == l.history[s]
               && !L.IsJustified(n, l, l.log[k].target.slot);
      assert !L.IsJustified(n, l', l'.log[k].target.slot);
    }
  }

  /** Moving finality forward prunes exactly the roots that no longer wait. */
  lemma AdvancePending(n: nat, l: L.Ledger, pending: V.Justifications, rootToSlot: map<Root, nat>,
                       source: Checkpoint, l': L.Ledger)
    requires L.NoRepeats(l.history) && L.LogSound(n, l)
    requires PendingMatches(n, l, pending) && Indexed(l, rootToSlot)
    requires l.finalized.slot < source.slot && l' == l.(finalized := source)
    ensures pending.Keys <= rootToSlot.Keys
    ensures PendingMatches(n, l', PrunePending(pending, rootToSlot, source.slot))
  {
    forall r | r in pending
      ensures r in rootToSlot && (Awaiting(n, l', r) <==> rootToSlot[r] > source.slot)
    {
      assert RowOk(n, l, pending, r);
      var s := AwaitingSlot(n, l, r);
      AdvanceAwaiting(n, l, source, l', s);
    }
    forall r ensures RowOk(n, l', PrunePending(pending, rootToSlot, source.slot), r) {
      assert RowOk(n, l, pending, r);
      if Awaiting(n, l', r) {
        var k :| 0 <= k < |l'.log| && l'.log[k].target.root == r && !L.IsJustified(n, l', l'.log[k].target.slot);
        AdvanceAwaiting(n, l, source, l', l.log[k].target.slot);
      }
    }
  }

  /** Finality moves up to `source`, or stays. */
  lemma FinalizeRefines(n: nat, l: L.Ledger, rootToSlot: map<Root, nat>, t: Tally, source: Checkpoint)
    requires L.NoRepeats(l.history) && L.LogSound(n, l)
    requires TallyMatches(n, l, t) && Indexed(l, rootToSlot)
    requires l.finalized.slot <= source.slot < |l.history|
    requires source.slot == l.finalized.slot ==> source == l.finalized
    ensures var r := FinalizeOutcome(rootToSlot, t, source);
            var l' := l.(finalized := source);
            r.Ok? && TallyMatches(n, l', r.value) && Indexed(l', rootToSlot)
  {
    if l.finalized.slot < source.slot {
      var l' := l.(finalized := source);
      AdvanceWindow(n, l, t.bits, source, l');
      AdvancePending(n, l, t.pending, rootToSlot, source, l');
    }
  }

  /** A target that reached its quorum: the tally after marking and dropping the row. */
  lemma JustifyRefines(n: nat, l: L.Ledger, rootToSlot: map<Root, nat>, marked: Tally, v: L.Vote,
                       l': L.Ledger)
    requires L.Sound(n, l) && L.Countable(n, l, v) && L.KnownVoters(n, v.voters)
    requires Indexed(l, rootToSlot)
    requires l' == l.(log := l.log + [v], justified := v.target) && L.Quorum(n, l'.log, v.target.root)
    requires TallyMatches(n, l', marked)
    ensures var r := if AnyJustifiableBetween(l.finalized.slot, v.source.slot, v.target.slot)
                     then Ok(marked) else FinalizeOutcome(rootToSlot, marked, v.source);
            var l'' := L.Count(n, l, v);
            r.Ok? && TallyMatches(n, l'', r.value) && Indexed(l'', rootToSlot)
  {
    if !AnyJustifiableBetween(l.finalized.slot, v.source.slot, v.target.slot) {
      L.CountAdvancesFinality(n, l, v);
      L.LogSoundAppend(n, l, l', v);
      FinalizeRefines(n, l', rootToSlot, marked, v.source);
    }
  }

  /** Marking the target's slot and dropping its row. */
  lemma MarkRefines(n: nat, l: L.Ledger, t: Tally, v: L.Vote, row: seq<bool>, l': L.Ledger)
    requires L.Sound(n, l) && TallyMatches(n, l, t) && L.Countable(n, l, v)
    requires |row| == n && Voters(row) == L.Supporters(l.log + [v], v.target.root)
    requires L.Quorum(n, l.log + [v], v.target.root)
    requires l' == l.(log := l.log + [v], justified := v.target)
    ensures var bits := W.WithJustified(t.bits, t.finalized.slot, v.target.slot);
            && bits.Some?
            && TallyMatches(n, l', t.(justified := v.target, bits := bits.value, pending := t.pending - {v.target.root}))
  {
    RecordMatches(n, l, t.pending, v, l', row, t.pending - {v.target.root});
    MarkMatches(n, l, v, l', t.bits);
  }

  /** Both sides count or skip the vote and stay related, or both reject with the same error. */
  ghost predicate TallyVerdict(n: nat, rootToSlot: map<Root, nat>, c: L.Cast, r: Outcome<Tally>) {
    match c
    case Rejected(e) => r == Err(CastFailure(e))
    case Accepted(l') => r.Ok? && TallyMatches(n, l', r.value) && Indexed(l', rootToSlot)
  }

  /** What follows the mark of the target: the scan, and finality over an empty one. */
  lemma JustifySteps(env: Env, rootToSlot: map<Root, nat>, t: Tally, source: Checkpoint, target: Checkpoint, marked: Tally)
    requires t.finalized.slot < target.slot
    requires var bits := W.WithJustified(t.bits, t.finalized.slot, target.slot);
             bits.Some? && marked == t.(justified := target, bits := bits.value, pending := t.pending - {target.root})
    ensures JustifyOutcome(env, rootToSlot, t, source, target)
         == if env.build.Debug? && source.slot + 1 < t.finalized.slot then Err(AssertionFailed)
            else if AnyJustifiableBetween(t.finalized.slot, source.slot, target.slot) then Ok(marked)
            else FinalizeOutcome(rootToSlot, marked, source)
  {
    ScanMeaning(env.build, t.finalized.slot, source.slot, target.slot);
  }

  /** A vote that brings its target to two thirds. */
  lemma QuorumRefines(env: Env, n: nat, l: L.Ledger, rootToSlot: map<Root, nat>, t: Tally, v: L.Vote, row: seq<bool>)
    requires L.Sound(n, l) && TallyMatches(n, l, t) && Indexed(l, rootToSlot)
    requires L.Countable(n, l, v) && L.KnownVoters(n, v.voters)
    requires |row| == n && Voters(row) == L.Supporters(l.log + [v], v.target.root)
    requires L.Quorum(n, l.log + [v], v.target.root)
    ensures var r := JustifyOutcome(env, rootToSlot, t.(pending := t.pending[v.target.root := row]),
                                    v.source, v.target);
            TallyVerdict(n, rootToSlot, L.CountCast(env.build.Debug?, n, l, v), r)
  {
    var root := v.target.root;
    var l' := l.(log := l.log + [v], justified := v.target);
    MarkRefines(n, l, t, v, row, l');
    var bits := W.WithJustified(t.bits, t.finalized.slot, v.target.slot).value;
    var marked := t.(justified := v.target, bits := bits, pending := t.pending - {root});
    assert t.pending[root := row] - {root} == t.pending - {root};
    JustifySteps(env, rootToSlot, t.(pending := t.pending[root := row]), v.source, v.target, marked);
    JustifyRefines(n, l, rootToSlot, marked, v, l');
  }

  /** A vote that leaves its target below two thirds. */
  lemma WaitRefines(asserts: bool, n: nat, l: L.Ledger, rootToSlot: map<Root, nat>, t: Tally, v: L.Vote, row: seq<bool>)
    requires L.Sound(n, l) && TallyMatches(n, l, t) && Indexed(l, rootToSlot)
    requires L.Countable(n, l, v) && L.KnownVoters(n, v.voters)
    requires |row| == n && Voters(row) == L.Supporters(l.log + [v], v.target.root)
    requires !L.Quorum(n, l.log + [v], v.target.root)
    ensures TallyVerdict(n, rootToSlot, L.CountCast(asserts, n, l, v), Ok(t.(pending := t.pending[v.target.root := row])))
  {
    var l' := l.(log := l.log + [v]);
    RecordMatches(n, l, t.pending, v, l', row, t.pending[v.target.root := row]);
    MarkMatches(n, l, v, l', t.bits);
  }

  /** The row with the vote added holds exactly the supporters with the vote added. */
  lemma MergedRow(n: nat, l: L.Ledger, t: Tally, a: Attestation)
    requires L.Sound(n, l) && TallyMatches(n, l, t) && L.Countable(n, l, VoteOf(a))
    ensures |RowOf(t, n, a.data.target.root)| == n
    ensures KnownVoters(n, a.bits) <==> L.KnownVoters(n, VoteOf(a).voters)
    ensures KnownVoters(n, a.bits) ==>
              var row := V.MergeVotes(RowOf(t, n, a.data.target.root), a.bits);
              |row| == n && Voters(row) == L.Supporters(l.log + [VoteOf(a)], a.data.target.root)
  {
    RowMatches(n, l, t, VoteOf(a));
    L.SupportersAppend(l.log, VoteOf(a), a.data.target.root);
  }

  lemma CountRefines(env: Env, n: nat, l: L.Ledger, rootToSlot: map<Root, nat>, t: Tally, a: Attestation)
    requires L.Sound(n, l) && TallyMatches(n, l, t) && Indexed(l, rootToSlot)
    requires L.Countable(n, l, VoteOf(a))
    ensures TallyVerdict(n, rootToSlot, L.CountCast(env.build.Debug?, n, l, VoteOf(a)),
                         CountOutcome(env, n, rootToSlot, t, a))
  {
    var v := VoteOf(a);
    MergedRow(n, l, t, a);
    if KnownVoters(n, a.bits) {
      var row := V.MergeVotes(RowOf(t, n, v.target.root), a.bits);
      if L.Quorum(n, l.log + [v], v.target.root) {
        QuorumRefines(env, n, l, rootToSlot, t, v, row);
      } else {
        WaitRefines(env.build.Debug?, n, l, rootToSlot, t, v, row);
      }
    }
  }

  /** The chain of filters lets through exactly the countable votes. */
  lemma FilterRefines(env: Env, n: nat, l: L.Ledger, rootToSlot: map<Root, nat>, t: Tally, a: Attestation)
    requires t.finalized == l.finalized && WindowMatches(n, l, t.bits)
    requires a.data.source.slot < |l.history| && a.data.target.slot < |l.history|
    ensures AttestOutcome(env, n, l.history, rootToSlot, t, a)
         == if L.Countable(n, l, VoteOf(a)) then CountOutcome(env, n, rootToSlot, t, a) else Ok(t)
  {
    assert W.Justified(t.bits, l.finalized.slot, a.data.source.slot)
      <==> L.IsJustified(n, l, a.data.source.slot);
    assert W.Justified(t.bits, l.finalized.slot, a.data.target.slot)
      <==> L.IsJustified(n, l, a.data.target.slot);
  }

  /** One attestation. */
  lemma AttestRefines(env: Env, n: nat, l: L.Ledger, rootToSlot: map<Root, nat>, t: Tally, a: Attestation)
    requires L.Sound(n, l) && TallyMatches(n, l, t) && Indexed(l, rootToSlot)
    ensures TallyVerdict(n, rootToSlot, L.CastVote(env.build.Debug?, n, l, VoteOf(a)),
                         AttestOutcome(env, n, l.history, rootToSlot, t, a))
  {
    if a.data.source.slot < |l.history| && a.data.target.slot < |l.history| {
      FilterRefines(env, n, l, rootToSlot, t, a);
      if L.Countable(n, l, VoteOf(a)) {
        CountRefines(env, n, l, rootToSlot, t, a);
      }
    }
  }

  lemma CastAllLast(asserts: bool, n: nat, l: L.Ledger, atts: seq<Attestation>)
    requires atts != []
    ensures var c := L.CastAll(asserts, n, l, VotesOf(atts[..|atts| - 1]));
            L.CastAll(asserts, n, l, VotesOf(atts)) ==
            if c.Rejected? then c else L.CastVote(asserts, n, c.ledger, VoteOf(atts[|atts| - 1]))
  {
    assert VotesOf(atts)[..|atts| - 1] == VotesOf(atts[..|atts| - 1]);
  }

  lemma AttestNext(env: Env, n: nat, history: seq<Root>, rootToSlot: map<Root, nat>, c: L.Cast, r: Outcome<Tally>,
                   a: Attestation)
    requires TallyVerdict(n, rootToSlot, c, r)
    requires c.Accepted? ==> L.Sound(n, c.ledger) && c.ledger.history == history
    ensures TallyVerdict(n, rootToSlot,
                         if c.Rejected? then c else L.CastVote(env.build.Debug?, n, c.ledger, VoteOf(a)),
                         if r.Err? then r else AttestOutcome(env, n, history, rootToSlot, r.value, a))
  {
    if c.Accepted? {
      AttestRefines(env, n, c.ledger, rootToSlot, r.value, a);
    }
  }

  lemma {:induction false} AttestAllRefines(env: Env, n: nat, l: L.Ledger, rootToSlot: map<Root, nat>,
                                            t: Tally, atts: seq<Attestation>)
    requires L.Sound(n, l) && TallyMatches(n, l, t) && Indexed(l, rootToSlot)
    ensures TallyVerdict(n, rootToSlot, L.CastAll(env.build.Debug?, n, l, VotesOf(atts)),
                         AttestAllOutcome(env, n, l.history, rootToSlot, t, atts))
  {
    if atts != [] {
      var front := atts[..|atts| - 1];
      AttestAllRefines(env, n, l, rootToSlot, t, front);
      CastAllLast(env.build.Debug?, n, l, atts);
      L.CastAllKeepsSound(env.build.Debug?, n, l, VotesOf(front));
      AttestNext(env, n, l.history, rootToSlot, L.CastAll(env.build.Debug?, n, l, VotesOf(front)),
                 AttestAllOutcome(env, n, l.history, rootToSlot, t, front), atts[|atts| - 1]);
    }
  }

  // ----- whole states

  ghost predicate StateMatches(n: nat, l: L.Ledger, s: State) {
    && |s.validators| == n
    && s.history == l.history && s.header.slot == |l.history|
    && s.justified == l.justified && s.finalized == l.finalized
    && (if l.history == [] then s.justifiedSlots == [] else WindowMatches(n, l, s.justifiedSlots))
    && O.StrictlySorted(s.pendingRoots)
    && |s.pendingVotes| == |s.pendingRoots| * n
    && PendingMatches(n, l, V.Unflatten(s.pendingRoots, s.pendingVotes, n))
  }

  /** Every recorded root is the hash of a header of that very slot. */
  ghost predicate Provenance(env: Env, history: seq<Root>) {
    forall i | 0 <= i < |history| && history[i] != ZERO_ROOT ::
      exists h: Header :: h.slot == i && env.headerRoot(h) == history[i]
  }

  /** The invariant of every state on an accepted chain. */
  ghost predicate Inv(env: Env, n: nat, l: L.Ledger, s: State) {
    L.Sound(n, l) && StateMatches(n, l, s) && Provenance(env, s.history)
  }

  lemma {:induction false} AdvanceSlotsFrame(env: Env, s: State, slot: nat)
    requires s.slot <= slot
    ensures var s' := AdvanceSlots(env, s, slot);
            s' == s.(slot := slot, header := s.header.(stateRoot := s'.header.stateRoot))
    decreases slot - s.slot
  {
    if s.slot < slot {
      AdvanceSlotsFrame(env, AdvanceSlot(env, s), slot);
    }
  }

  /** The parent of a new block is a root that the history does not have yet. */
  lemma ParentIsFresh(env: Env, history: seq<Root>, header: Header)
    requires CollisionFree(env) && Provenance(env, history) && header.slot == |history|
    ensures env.headerRoot(header) == ZERO_ROOT || env.headerRoot(header) !in history
  {
    forall i | 0 <= i < |history| && history[i] != ZERO_ROOT ensures history[i] != env.headerRoot(header) {
      var h: Header :| h.slot == i && env.headerRoot(h) == history[i];
      assert Collide(env, h, header) ==> h == header;
    }
  }

  lemma ExtendWindow(n: nat, l: L.Ledger, parentRoot: Root, slot: nat, bits: seq<bool>)
    requires n > 0 && L.Sound(n, l) && slot > |l.history|
    requires parentRoot == ZERO_ROOT || parentRoot !in l.history
    requires if l.history == [] then bits == [] else WindowMatches(n, l, bits)
    ensures WindowMatches(n, L.Extend(l, parentRoot, slot), W.ExtendToSlot(bits, l.finalized.slot, slot - 1))
  {
    var l' := L.Extend(l, parentRoot, slot);
    var bits' := W.ExtendToSlot(bits, l.finalized.slot, slot - 1);
    forall k | 0 <= k < |l.log| ensures l.log[k].target.root != parentRoot {
      assert L.OnChain(l, l.log[k].target);
    }
    L.NoVotesNoSupporters(l.log, parentRoot);
    forall s: nat | s < slot
      ensures W.Justified(bits', l.finalized.slot, s) <==> L.IsJustified(n, l', s)
    {
      assert W.Justified(bits', l.finalized.slot, s) <==> W.Justified(bits, l.finalized.slot, s);
      if s < |l.history| {
        assert l'.history[s] == l.history[s];
        assert W.Justified(bits, l.finalized.slot, s) <==> L.IsJustified(n, l, s);
      } else {
        assert l'.history[s] == ZERO_ROOT || l'.history[s] == parentRoot;
      }
    }
  }

  lemma ExtendPending(n: nat, l: L.Ledger, parentRoot: Root, slot: nat, table: V.Justifications)
    requires L.Sound(n, l) && slot > |l.history| && PendingMatches(n, l, table)
    ensures PendingMatches(n, L.Extend(l, parentRoot, slot), table)
  {
    var l' := L.Extend(l, parentRoot, slot);
    forall k | 0 <= k < |l.log|
      ensures L.IsJustified(n, l', l'.log[k].target.slot) <==> L.IsJustified(n, l, l.log[k].target.slot)
    {
      assert L.OnChain(l, l.log[k].target);
    }
    forall r ensures RowOk(n, l', table, r) {
      assert RowOk(n, l, table, r);
      assert Awaiting(n, l', r) <==> Awaiting(n, l, r) by {
        if k :| 0 <= k < |l.log| && l.log[k].target.root == r && !L.IsJustified(n, l, l.log[k].target.slot) {
          assert !L.IsJustified(n, l', l'.log[k].target.slot);
        }
        if k :| 0 <= k < |l'.log| && l'.log[k].target.root == r && !L.IsJustified(n, l', l'.log[k].target.slot) {
          assert !L.IsJustified(n, l, l.log[k].target.slot);
        }
      }
    }
  }

  /** An accepted header extends the chain by its parent and the empty slots after it. */
  lemma HeaderRefines(env: Env, n: nat, l: L.Ledger, s: State, block: Block)
    requires CollisionFree(env) && n > 0 && Inv(env, n, l, s) && HeaderOutcome(env, s, block).Ok?
    ensures block.slot > |l.history|
    ensures var l' := L.Extend(l, block.parentRoot, block.slot);
            Inv(env, n, l', HeaderOutcome(env, s, block).value) && L.Advances(n, l, l')
  {
    ParentIsFresh(env, s.history, s.header);
    L.ExtendKeepsSound(n, l, block.parentRoot, block.slot);
    ExtendWindow(n, l, block.parentRoot, block.slot, s.justifiedSlots);
    ExtendPending(n, l, block.parentRoot, block.slot, V.Unflatten(s.pendingRoots, s.pendingVotes, n));
    var s' := HeaderOutcome(env, s, block).value;
    forall i | 0 <= i < |s'.history| && s'.history[i] != ZERO_ROOT
      ensures exists h: Header :: h.slot == i && env.headerRoot(h) == s'.history[i]
    {
      if i < |s.history| {
        var h: Header :| h.slot == i && env.headerRoot(h) == s.history[i];
        assert h.slot == i && env.headerRoot(h) == s'.history[i];
      } else {
        assert s.header.slot == i && env.headerRoot(s.header) == s'.history[i];
      }
    }
  }

  lemma RootToSlotIndexes(l: L.Ledger)
    requires L.NoRepeats(l.history)
    ensures Indexed(l, RootToSlot(l.history, l.finalized.slot + 1, |l.history|))
  {
    forall r { RootToSlotIsLast(l.history, l.finalized.slot + 1, |l.history|, r); }
  }

  /** Both sides accept and agree on the result, or both reject with the same error. */
  ghost predicate SameVerdict(env: Env, n: nat, l: L.Ledger, c: L.Cast, r: Outcome<State>) {
    match c
    case Rejected(e) => r == Err(CastFailure(e))
    case Accepted(l') => r.Ok? && Inv(env, n, l', r.value) && L.Advances(n, l, l')
  }

  /** Writing the tally back to the flat lists loses nothing. */
  lemma FlattenMatches(n: nat, l: L.Ledger, pending: V.Justifications)
    requires PendingMatches(n, l, pending)
    ensures V.RowsOfSize(pending, n)
    ensures var roots := O.SortedRoots(pending.Keys);
            && (forall q | q in roots :: q in pending)
            && |V.FlatRows(pending, roots)| == |roots| * n
            && PendingMatches(n, l, V.Unflatten(roots, V.FlatRows(pending, roots), n))
  {
    forall q | q in pending ensures |pending[q]| == n {
      assert RowOk(n, l, pending, q);
    }
    V.RebuildAfterFlatten(pending, n);
  }

  lemma WriteBackRefines(env: Env, n: nat, l: L.Ledger, s: State, t: Tally)
    requires L.Sound(n, l) && TallyMatches(n, l, t) && l.history != []
    requires |s.validators| == n && s.history == l.history && s.header.slot == |l.history|
    requires Provenance(env, s.history)
    ensures var r := WriteBack(s, n, t); r.Ok? && Inv(env, n, l, r.value)
  {
    FlattenMatches(n, l, t.pending);
  }

  lemma TallyRefines(env: Env, n: nat, l: L.Ledger, s: State, atts: seq<Attestation>)
    requires L.Sound(n, l) && StateMatches(n, l, s) && l.history != []
    ensures FlatSizeOk(s)
    ensures TallyVerdict(n, RootToSlot(s.history, s.finalized.slot + 1, |s.history|),
                         L.CastAll(env.build.Debug?, n, l, VotesOf(atts)), LoopOutcome(env, s, atts))
  {
    assert TallyMatches(n, l, TallyOf(s));
    RootToSlotIndexes(l);
    AttestAllRefines(env, n, l, RootToSlot(s.history, s.finalized.slot + 1, |s.history|), TallyOf(s), atts);
  }

  lemma WriteVerdict(env: Env, n: nat, l: L.Ledger, s: State, rootToSlot: map<Root, nat>, c: L.Cast, r: Outcome<Tally>)
    requires TallyVerdict(n, rootToSlot, c, r)
    requires c.Accepted? ==> L.Sound(n, c.ledger) && L.Advances(n, l, c.ledger) && c.ledger.history == l.history
    requires l.history != [] && |s.validators| == n && s.history == l.history && s.header.slot == |l.history|
    requires Provenance(env, s.history)
    ensures SameVerdict(env, n, l, c, WriteOutcome(s, n, r))
  {
    if c.Accepted? {
      WriteBackRefines(env, n, c.ledger, s, r.value);
    }
  }

  /** The attestations of a block: same verdict as the ledger, never a fault. */
  lemma AttestationsRefine(env: Env, n: nat, l: L.Ledger, s: State, atts: seq<Attestation>)
    requires Inv(env, n, l, s) && l.history != []
    ensures SameVerdict(env, n, l, L.CastAll(env.build.Debug?, n, l, VotesOf(atts)), AttestationsOutcome(env, s, atts))
  {
    TallyRefines(env, n, l, s, atts);
    L.CastAllKeepsSound(env.build.Debug?, n, l, VotesOf(atts));
    WriteVerdict(env, n, l, s, RootToSlot(s.history, s.finalized.slot + 1, |s.history|),
                 L.CastAll(env.build.Debug?, n, l, VotesOf(atts)), LoopOutcome(env, s, atts));
  }

  // ----- runs

  /** The ledger of a block on top of the ledger of its parent. */
  ghost function LedgerStep(env: Env, n: nat, l: L.Ledger, block: Block): Option<L.Ledger> {
    if block.slot <= |l.history| then None
    else
      match L.CastAll(env.build.Debug?, n, L.Extend(l, block.parentRoot, block.slot), VotesOf(block.body))
      case Rejected(_) => None
      case Accepted(l') => Some(l')
  }

  /** The ledger of a chain: a function of the blocks alone. */
  ghost function LedgerOf(env: Env, n: nat, blocks: seq<Block>): Option<L.Ledger> {
    if blocks == [] then Some(L.Genesis())
    else
      var front := LedgerOf(env, n, blocks[..|blocks| - 1]);
      if front.None? then None else LedgerStep(env, n, front.value, blocks[|blocks| - 1])
  }

  lemma GenesisMatches(env: Env, config: nat, validators: seq<nat>)
    ensures Inv(env, |validators|, L.Genesis(), GenesisState(env, config, validators))
  {
    var l := L.Genesis();
    var s := GenesisState(env, config, validators);
    assert V.Unflatten(s.pendingRoots, s.pendingVotes, |validators|) == map[];
    assert forall r :: !Awaiting(|validators|, l, r);
  }

  lemma SlotsKeepInv(env: Env, n: nat, l: L.Ledger, s: State, slot: nat)
    requires Inv(env, n, l, s) && s.slot < slot
    ensures Inv(env, n, l, AdvanceSlots(env, s, slot))
  {
    AdvanceSlotsFrame(env, s, slot);
  }

  /** Header and attestations of one block. */
  lemma BlockRefines(env: Env, n: nat, l: L.Ledger, s: State, block: Block)
    requires CollisionFree(env) && n > 0 && Inv(env, n, l, s) && HeaderOutcome(env, s, block).Ok?
    ensures block.slot > |l.history|
    ensures var l1 := L.Extend(l, block.parentRoot, block.slot);
            && L.Advances(n, l, l1)
            && SameVerdict(env, n, l1, L.CastAll(env.build.Debug?, n, l1, VotesOf(block.body)), BlockOutcome(env, s, block))
  {
    HeaderRefines(env, n, l, s, block);
    var l1 := L.Extend(l, block.parentRoot, block.slot);
    AttestationsRefine(env, n, l1, HeaderOutcome(env, s, block).value, block.body);
  }

  /** One accepted block. */
  lemma TransitionRefines(env: Env, n: nat, l: L.Ledger, s: State, block: Block)
    requires CollisionFree(env) && n > 0 && Inv(env, n, l, s)
    ensures TransitionOutcome(env, block, s, true).Ok? ==>
              && LedgerStep(env, n, l, block).Some?
              && Inv(env, n, LedgerStep(env, n, l, block).value, TransitionOutcome(env, block, s, true).value)
              && L.Advances(n, l, LedgerStep(env, n, l, block).value)
    ensures TransitionOutcome(env, block, s, true) != Err(Fault)
  {
    if s.slot < block.slot {
      SlotsKeepInv(env, n, l, s, block.slot);
      var s1 := AdvanceSlots(env, s, block.slot);
      if HeaderOutcome(env, s1, block).Ok? {
        BlockRefines(env, n, l, s1, block);
      }
    }
  }

  /**
   * Main theorem: on every chain of accepted blocks from genesis the state says exactly what the
   * ledger of that chain says, and no partial look-up of the transition function ever fails.
   */
  lemma {:induction false} RunRefinesLedger(env: Env, config: nat, validators: seq<nat>, blocks: seq<Block>)
    requires CollisionFree(env) && |validators| > 0
    ensures Run(env, GenesisState(env, config, validators), blocks).Ok? ==>
              && LedgerOf(env, |validators|, blocks).Some?
              && Inv(env, |validators|, LedgerOf(env, |validators|, blocks).value,
                     Run(env, GenesisState(env, config, validators), blocks).value)
    ensures Run(env, GenesisState(env, config, validators), blocks) != Err(Fault)
  {
    if blocks == [] {
      GenesisMatches(env, config, validators);
    } else {
      var front := blocks[..|blocks| - 1];
      RunRefinesLedger(env, config, validators, front);
      var r := Run(env, GenesisState(env, config, validators), front);
      if r.Ok? {
        var l := LedgerOf(env, |validators|, front).value;
        TransitionRefines(env, |validators|, l, r.value, blocks[|blocks| - 1]);
      }
    }
  }
}
