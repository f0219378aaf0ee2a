/**
 * The fork choice store: head, safe target, and the latest vote of every validator, known or pending.
 * Attestations enter from blocks and from gossip; pending votes become known when they are accepted.
 */
module ForkChoiceStores {
  import opened Types
  import opened AggregationBits
  import opened Forests
  import opened TreeViews
  import opened LmdGhost
  import opened SafeTargets

  type VoteMap = map<nat, AttestationData>

  /** What the walks read of the votes: the head that each validator votes for. */
  function Heads(votes: VoteMap): Votes {
    map i | i in votes :: votes[i].head.root
  }

  datatype Ballots = Ballots(known: VoteMap, pending: VoteMap)

  // ----- validation

  datatype AttestationError = SourceNotFound | TargetNotFound | HeadNotFound | InvalidAttestation

  /** `validateAttestation` against the stored headers, at the current slot. */
  function Validated(f: Forest, now: nat, data: AttestationData): Option<AttestationError> {
    if data.source.root !in f then Some(SourceNotFound)
    else if data.target.root !in f then Some(TargetNotFound)
    else if data.head.root !in f then Some(HeadNotFound)
    else if data.source.slot > data.target.slot then Some(InvalidAttestation)
    else if data.head.slot < data.target.slot then Some(InvalidAttestation)
    else if f[data.source.root].slot != data.source.slot then Some(InvalidAttestation)
    else if f[data.target.root].slot != data.target.slot then Some(InvalidAttestation)
    else if data.slot > now + 1 then Some(InvalidAttestation)
    else None
  }

  /** A gossiped vote must not be ahead of the clock at all. */
  function Admitted(f: Forest, now: nat, data: AttestationData, fromBlock: bool): Option<AttestationError> {
    var error := Validated(f, now, data);
    if error.None? && !fromBlock && data.slot > now then Some(InvalidAttestation) else error
  }

  // ----- one vote, and the same vote of many validators

  /** The vote is news for the validator. */
  predicate IsNewer(votes: VoteMap, validator: nat, data: AttestationData) {
    validator !in votes || votes[validator].slot < data.slot
  }

  /** Every validator of the set has this vote unless it had one that is as late. */
  ghost function Latest(votes: VoteMap, voters: set<nat>, data: AttestationData): VoteMap {
    map i | i in votes.Keys + voters :: if i in voters && IsNewer(votes, i, data) then data else votes[i]
  }

  /** Without the votes of the set that are not later. */
  ghost function Superseded(votes: VoteMap, voters: set<nat>, data: AttestationData): VoteMap {
    map i | i in votes && !(i in voters && votes[i].slot <= data.slot) :: votes[i]
  }

  /** A vote from a block is known at once and replaces pending ones; a gossiped vote is pending. */
  ghost function Cast(b: Ballots, voters: set<nat>, data: AttestationData, fromBlock: bool): Ballots {
    if fromBlock then Ballots(Latest(b.known, voters, data), Superseded(b.pending, voters, data))
    else Ballots(b.known, Latest(b.pending, voters, data))
  }

  lemma CastNobody(b: Ballots, data: AttestationData, fromBlock: bool)
    ensures Cast(b, {}, data, fromBlock) == b
  {
    assert Latest(b.known, {}, data) == b.known && Latest(b.pending, {}, data) == b.pending;
    assert Superseded(b.pending, {}, data) == b.pending;
  }

  /** Voters can be taken one by one, in any order. */
  lemma LatestOneMore(votes: VoteMap, voters: set<nat>, i: nat, data: AttestationData)
    ensures Latest(Latest(votes, voters, data), {i}, data) == Latest(votes, voters + {i}, data)
  {
  }

  lemma CastOneMore(b: Ballots, voters: set<nat>, i: nat, data: AttestationData, fromBlock: bool)
    ensures Cast(Cast(b, voters, data, fromBlock), {i}, data, fromBlock) == Cast(b, voters + {i}, data, fromBlock)
  {
    LatestOneMore(b.known, voters, i, data);
    LatestOneMore(b.pending, voters, i, data);
    assert Superseded(Superseded(b.pending, voters, data), {i}, data) == Superseded(b.pending, voters + {i}, data);
  }

  // ----- pending votes that are out of date

  /** No pending vote is earlier than the known vote of its validator. */
  ghost predicate PendingNotOlder(b: Ballots) {
    forall i | i in b.pending && i in b.known :: b.known[i].slot <= b.pending[i].slot
  }

  /**
   * A vote from a block keeps it. A gossiped vote breaks it exactly when it becomes the pending vote of a
   * validator whose known vote is later.
   */
  lemma NotOlderExactly(b: Ballots, voters: set<nat>, data: AttestationData, fromBlock: bool)
    requires PendingNotOlder(b)
    ensures PendingNotOlder(Cast(b, voters, data, fromBlock)) <==>
            fromBlock
            || forall i | i in voters && i in b.known && IsNewer(b.pending, i, data) :: b.known[i].slot <= data.slot
  {
    var c := Cast(b, voters, data, fromBlock);
    if !fromBlock && PendingNotOlder(c) {
      forall i | i in voters && i in b.known && IsNewer(b.pending, i, data) ensures b.known[i].slot <= data.slot {
        assert i in c.pending && c.pending[i] == data;
      }
    }
  }

  ghost function Accepted(b: Ballots): Ballots {
    Ballots(b.known + b.pending, map[])
  }

  /** Accepting the pending votes takes no validator back to an earlier vote if and only if none is older. */
  lemma AcceptKeepsLatest(b: Ballots)
    ensures PendingNotOlder(b) <==> forall i | i in b.known :: b.known[i].slot <= Accepted(b).known[i].slot
    ensures PendingNotOlder(Accepted(b))
  {
    var c := Accepted(b);
    assert forall i | i in b.pending && i in b.known :: i in c.known && c.known[i] == b.pending[i];
  }

  /** An input: validator 0 votes at slot 2 in a block, and its vote of slot 1 arrives from gossip after that. */
  lemma KnownVoteGoesBack(f: Forest, genesis: Root)
    requires f == map[genesis := Node(0, None)]
    ensures var g := Checkpoint(genesis, 0);
            var early, late := AttestationData(1, g, g, g), AttestationData(2, g, g, g);
            var b := Cast(Ballots(map[], map[]), {0}, late, true);
            var c := Accepted(Cast(b, {0}, early, false));
            && Admitted(f, 2, late, true).None? && Admitted(f, 2, early, false).None?
            && b.known == map[0 := late] && c.known == map[0 := early]
  {
  }

  // ----- the attestations of a block

  datatype Counted = Counted(ballots: Ballots, error: Option<AttestationError>)

  /** The first `m` attestations of a body, with the participants of their proofs; the first failure stops. */
  ghost function CastBody(f: Forest, now: nat, b: Ballots, body: seq<Attestation>, proofs: seq<seq<bool>>, m: nat): Counted
    requires m <= |body| && m <= |proofs|
  {
    if m == 0 then Counted(b, None)
    else
      var front := CastBody(f, now, b, body, proofs, m - 1);
      var voters, data := Voters(proofs[m - 1]), body[m - 1].data;
      var error := if voters == {} then None else Admitted(f, now, data, true);
      if front.error.Some? then front
      else if error.Some? then Counted(front.ballots, error)
      else Counted(Cast(front.ballots, voters, data, true), None)
  }

  lemma {:induction false} FailureStops(f: Forest, now: nat, b: Ballots, body: seq<Attestation>, proofs: seq<seq<bool>>,
                                        m: nat, k: nat)
    requires k <= m <= |body| && m <= |proofs| && CastBody(f, now, b, body, proofs, k).error.Some?
    ensures CastBody(f, now, b, body, proofs, m) == CastBody(f, now, b, body, proofs, k)
    decreases m
  {
    if k < m {
      FailureStops(f, now, b, body, proofs, m - 1, k);
    }
  }

  // ----- whose votes are kept

  ghost predicate VotersBelow(n: nat, b: Ballots) {
    (forall i | i in b.known :: i < n) && forall i | i in b.pending :: i < n
  }

  lemma CastVotersBelow(n: nat, b: Ballots, voters: set<nat>, data: AttestationData, fromBlock: bool)
    requires VotersBelow(n, b) && forall i | i in voters :: i < n
    ensures VotersBelow(n, Cast(b, voters, data, fromBlock))
  {
  }

  lemma AcceptedVotersBelow(n: nat, b: Ballots)
    requires VotersBelow(n, b)
    ensures VotersBelow(n, Accepted(b))
  {
  }

  lemma {:induction false} BodyVotersBelow(n: nat, f: Forest, now: nat, b: Ballots, body: seq<Attestation>,
                                           proofs: seq<seq<bool>>, m: nat)
    requires m <= |body| && m <= |proofs| && VotersBelow(n, b)
    requires forall j | 0 <= j < m :: forall i | i in Voters(proofs[j]) :: i < n
    ensures VotersBelow(n, CastBody(f, now, b, body, proofs, m).ballots)
  {
    if m > 0 {
      BodyVotersBelow(n, f, now, b, body, proofs, m - 1);
      CastVotersBelow(n, CastBody(f, now, b, body, proofs, m - 1).ballots, Voters(proofs[m - 1]), body[m - 1].data, true);
    }
  }

  /** There are no more votes than validators. */
  lemma {:induction false} AtMostOneVoteEach(n: nat, keys: set<nat>)
    requires forall i | i in keys :: i < n
    ensures |keys| <= n
  {
    if n == 0 {
      assert keys == {};
    } else {
      AtMostOneVoteEach(n - 1, keys - {n - 1});
    }
  }

  /** The voters among the first `m` validators. */
  ghost function FirstVoters(bits: seq<bool>, m: nat): set<nat>
    requires m <= |bits|
  {
    set i: nat | i < m && bits[i]
  }

  lemma NextVoter(bits: seq<bool>, i: nat)
    requires i < |bits|
    ensures FirstVoters(bits, i + 1) == if bits[i] then FirstVoters(bits, i) + {i} else FirstVoters(bits, i)
    ensures bits[i] ==> Voters(bits) != {}
  {
    if bits[i] { assert i in Voters(bits); }
  }

  lemma AllVoters(bits: seq<bool>)
    ensures FirstVoters(bits, |bits|) == Voters(bits)
  {
  }

  class ForkChoiceStore {
    var head: Checkpoint
    var safeTarget: Checkpoint
    var known: VoteMap
    var pending: VoteMap

    ghost function Votes(): Ballots
      reads this`known, this`pending
    {
      Ballots(known, pending)
    }

    /** A store that starts from the justified checkpoint, without votes. */
    constructor (justified: Checkpoint)
      ensures head == safeTarget == justified && known == pending == map[]
    {
      head, safeTarget, known, pending := justified, justified, map[], map[];
    }

    /** `onAttestation`: the vote of one validator. */
    method OnAttestation(f: Forest, now: nat, validator: nat, data: AttestationData, fromBlock: bool)
      returns (error: Option<AttestationError>)
      modifies this`known, this`pending
      ensures error == Admitted(f, now, data, fromBlock)
      ensures Votes() == if error.None? then Cast(old(Votes()), {validator}, data, fromBlock) else old(Votes())
    {
      error := Validated(f, now, data);
      if error.Some? {
        return;
      }
      if fromBlock {
        if validator !in known || known[validator].slot < data.slot {
          known := known[validator := data];
        }
        if validator in pending && pending[validator].slot <= data.slot {
          pending := pending - {validator};
        }
        assert known == Latest(old(known), {validator}, data);
        assert pending == Superseded(old(pending), {validator}, data);
      } else {
        if data.slot > now {
          return Some(InvalidAttestation);
        }
        if validator !in pending || pending[validator].slot < data.slot {
          pending := pending[validator := data];
        }
        assert pending == Latest(old(pending), {validator}, data);
      }
    }

    /** One participant more. */
    method OnParticipant(ghost b: Ballots, ghost voters: set<nat>, f: Forest, now: nat, validator: nat,
                         data: AttestationData, fromBlock: bool)
      returns (error: Option<AttestationError>)
      requires Votes() == Cast(b, voters, data, fromBlock)
      modifies this`known, this`pending
      ensures error == Admitted(f, now, data, fromBlock)
      ensures Votes() == Cast(b, if error.None? then voters + {validator} else voters, data, fromBlock)
    {
      CastOneMore(b, voters, validator, data, fromBlock);
      error := OnAttestation(f, now, validator, data, fromBlock);
    }

    /** `onAggregatedAttestation`: the votes of all participants, or of none of them. */
    method OnAggregated(f: Forest, now: nat, bits: seq<bool>, data: AttestationData, fromBlock: bool)
      returns (error: Option<AttestationError>)
      modifies this`known, this`pending
      ensures error == if Voters(bits) == {} then None else Admitted(f, now, data, fromBlock)
      ensures Votes() == if error.None? then Cast(old(Votes()), Voters(bits), data, fromBlock) else old(Votes())
    {
      ghost var b, voters := Votes(), {};
      CastNobody(b, data, fromBlock);
      var i := 0;
      while i < |bits|
        invariant 0 <= i <= |bits| && voters == FirstVoters(bits, i)
        invariant voters != {} ==> Admitted(f, now, data, fromBlock).None?
        invariant Votes() == Cast(b, voters, data, fromBlock)
      {
        NextVoter(bits, i);
        if bits[i] {
          error := OnParticipant(b, voters, f, now, i, data, fromBlock);
          if error.Some? {
            return;
          }
          voters := voters + {i};
        }
        i := i + 1;
      }
      AllVoters(bits);
      error := None;
    }

    /** The loop of `onBlock` over the attestations of the body. */
    method OnBody(f: Forest, now: nat, body: seq<Attestation>, proofs: seq<seq<bool>>)
      returns (error: Option<AttestationError>)
      requires |body| == |proofs|
      modifies this`known, this`pending
      ensures head == old(head) && Counted(Votes(), error) == CastBody(f, now, old(Votes()), body, proofs, |body|)
    {
      var m := 0;
      while m < |body|
        invariant 0 <= m <= |body|
        invariant Counted(Votes(), None) == CastBody(f, now, old(Votes()), body, proofs, m)
      {
        error := OnAggregated(f, now, proofs[m], body[m].data, true);
        m := m + 1;
        if error.Some? {
          FailureStops(f, now, old(Votes()), body, proofs, |body|, m);
          return;
        }
      }
      error := None;
    }

    /**
     * Pending votes decide the safe target. `validatorCount` is the number of validators of the head's
     * state; without that state nothing happens.
     */
    method UpdateSafeTarget(v: View, justified: Root, validatorCount: Option<nat>) returns (ok: bool)
      requires ViewOk(v)
      modifies this`safeTarget
      ensures ok <==> validatorCount.Some?
      ensures ok ==> safeTarget.root == GhostHead(v, justified, Heads(pending), MinTargetScore(validatorCount.value))
      ensures ok ==> At(v.headers, safeTarget)
      ensures !ok ==> safeTarget == old(safeTarget)
    {
      if validatorCount.None? {
        return false;
      }
      var root := ComputeHead(v, justified, Heads(pending), MinTargetScore(validatorCount.value));
      safeTarget := Checkpoint(root, v.headers[root].slot);
      return true;
    }

    /**
     * `updateHead`: the head becomes the walk over known votes, unless the old head is no longer stored,
     * in which case the search for a reorganisation fails and the head stays.
     */
    method UpdateHead(v: View, justified: Root) returns (ok: bool)
      requires ViewOk(v) && (head.root in v.headers ==> At(v.headers, head))
      modifies this`head
      ensures ok <==> old(head.root) in v.headers
      ensures ok ==> head.root == GhostHead(v, justified, Heads(known), 0) && At(v.headers, head)
      ensures !ok ==> head == old(head)
    {
      var root := ComputeHead(v, justified, Heads(known), 0);
      var next := Checkpoint(root, v.headers[root].slot);
      ghost var common := root;
      if head.root in v.headers {
        common := CommonAncestor(v, head.root, root);
      }
      var reorg := DetectReorg(v.headers, head, next, common);
      if reorg.None? {
        return false;
      }
      head := next;
      return true;
    }

    /** Every pending vote replaces the known one of its validator; none is lost. */
    method AcceptPending()
      modifies this`known, this`pending
      ensures head == old(head) && Votes() == Accepted(old(Votes()))
    {
      var rest := pending.Keys;
      while rest != {}
        invariant rest <= pending.Keys && pending == old(pending)
        invariant known == old(known) + (old(pending) - rest)
        decreases rest
      {
        var validator :| validator in rest;
        known := known[validator := pending[validator]];
        rest := rest - {validator};
      }
      pending := map[];
    }
  }
}
