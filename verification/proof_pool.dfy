/**
 * The pool of attestations waiting for a block: for every vote the raw signatures and the aggregated
 * proofs. What matters is who is covered: no operation loses or invents a voter.
 */
module ProofPools {
  import opened Types
  import opened AggregationBits

  /** A proof that all `participants` signed. */
  datatype Proof = Proof(participants: seq<bool>, data: nat)

  datatype Batch = Batch(data: AttestationData, signatures: map<nat, nat>, proofs: seq<Proof>)

  /** Who is covered by some proof. */
  ghost function Coverage(proofs: seq<Proof>): set<nat> {
    if proofs == [] then {}
    else Coverage(proofs[..|proofs| - 1]) + Voters(proofs[|proofs| - 1].participants)
  }

  /** Everyone the batch speaks for. */
  ghost function Total(b: Batch): set<nat> {
    b.signatures.Keys + Coverage(b.proofs)
  }

  /** No proof covers another one. */
  ghost predicate Incomparable(proofs: seq<Proof>) {
    forall i, j | 0 <= i < |proofs| && 0 <= j < |proofs| && i != j ::
      !(Voters(proofs[i].participants) <= Voters(proofs[j].participants))
  }

  ghost predicate BatchOk(b: Batch) {
    Incomparable(b.proofs) && b.signatures.Keys !! Coverage(b.proofs)
  }

  lemma {:induction false} CoverageMember(proofs: seq<Proof>, i: nat)
    ensures i in Coverage(proofs) <==> exists p :: p in proofs && i in Voters(p.participants)
  {
    if proofs != [] {
      var k := |proofs| - 1;
      CoverageMember(proofs[..k], i);
      assert proofs == proofs[..k] + [proofs[k]];
      assert forall p :: p in proofs <==> p in proofs[..k] || p == proofs[k];
    }
  }

  lemma CoverageAppend(proofs: seq<Proof>, p: Proof)
    ensures Coverage(proofs + [p]) == Coverage(proofs) + Voters(p.participants)
  {
    assert (proofs + [p])[..|proofs|] == proofs;
  }

  // ----- one batch

  /** Kept unless strictly inside the new proof. */
  ghost predicate Keeps(kept: Proof, added: Proof) {
    !(Voters(kept.participants) <= Voters(added.participants)) || Voters(added.participants) <= Voters(kept.participants)
  }

  ghost function Retain(proofs: seq<Proof>, p: Proof): seq<Proof> {
    if proofs == [] then []
    else
      var front := Retain(proofs[..|proofs| - 1], p);
      if Keeps(proofs[|proofs| - 1], p) then front + [proofs[|proofs| - 1]] else front
  }

  lemma {:induction false} RetainMember(proofs: seq<Proof>, p: Proof, q: Proof)
    ensures q in Retain(proofs, p) <==> q in proofs && Keeps(q, p)
  {
    if proofs != [] {
      var k := |proofs| - 1;
      RetainMember(proofs[..k], p, q);
      assert proofs == proofs[..k] + [proofs[k]];
    }
  }

  lemma {:induction false} RetainAll(proofs: seq<Proof>, p: Proof)
    requires forall q | q in proofs :: Keeps(q, p)
    ensures Retain(proofs, p) == proofs
  {
    if proofs != [] {
      var k := |proofs| - 1;
      RetainAll(proofs[..k], p);
      assert proofs == proofs[..k] + [proofs[k]];
    }
  }

  /** Dropping proofs keeps the others incomparable. */
  lemma {:induction false} RetainIncomparable(proofs: seq<Proof>, p: Proof)
    requires Incomparable(proofs)
    ensures Incomparable(Retain(proofs, p))
  {
    if proofs != [] {
      var k := |proofs| - 1;
      var front := Retain(proofs[..k], p);
      RetainIncomparable(proofs[..k], p);
      forall i | 0 <= i < |front|
        ensures !(Voters(front[i].participants) <= Voters(proofs[k].participants))
        ensures !(Voters(proofs[k].participants) <= Voters(front[i].participants))
      {
        RetainMember(proofs[..k], p, front[i]);
        assert front[i] in front;
        var j :| 0 <= j < k && proofs[..k][j] == front[i];
        assert proofs[j] == front[i];
      }
    }
  }

  /** Kept coverage together with the new proof is old coverage together with the new proof. */
  lemma RetainCoverage(proofs: seq<Proof>, p: Proof)
    ensures Coverage(Retain(proofs, p)) + Voters(p.participants) == Coverage(proofs) + Voters(p.participants)
    ensures Coverage(Retain(proofs, p)) <= Coverage(proofs)
  {
    forall i
      ensures i in Coverage(Retain(proofs, p)) ==> i in Coverage(proofs)
      ensures i in Coverage(proofs) ==> i in Coverage(Retain(proofs, p)) || i in Voters(p.participants)
    {
      CoverageMember(proofs, i);
      CoverageMember(Retain(proofs, p), i);
      forall q ensures q in Retain(proofs, p) <==> q in proofs && Keeps(q, p) {
        RetainMember(proofs, p, q);
      }
    }
  }

  ghost function WithProof(b: Batch, p: Proof): Batch {
    var kept := Retain(b.proofs, p);
    if Voters(p.participants) <= Coverage(kept) then b.(proofs := kept)
    else Batch(b.data, b.signatures - Voters(p.participants), kept + [p])
  }

  ghost function WithSignature(b: Batch, i: nat, signature: nat): Batch {
    if i in Coverage(b.proofs) then b else b.(signatures := b.signatures[i := signature])
  }

  /** One proof for everyone, no raw signatures. */
  ghost predicate IsAggregate(b: Batch, r: Batch) {
    && r.data == b.data && r.signatures == map[] && |r.proofs| == 1
    && Voters(r.proofs[0].participants) == Total(b)
  }

  /** Adding a proof covers exactly the old proofs and the new participants, and keeps the batch well formed. */
  lemma ProofCoverage(b: Batch, p: Proof)
    requires BatchOk(b)
    ensures var b' := WithProof(b, p);
            && Coverage(b'.proofs) == Coverage(b.proofs) + Voters(p.participants)
            && Total(b') == Total(b) + Voters(p.participants)
            && BatchOk(b')
  {
    var kept := Retain(b.proofs, p);
    RetainCoverage(b.proofs, p);
    RetainIncomparable(b.proofs, p);
    CoverageAppend(kept, p);
    if !(Voters(p.participants) <= Coverage(kept)) {
      var proofs := kept + [p];
      forall i | 0 <= i < |kept|
        ensures !(Voters(kept[i].participants) <= Voters(p.participants))
        ensures !(Voters(p.participants) <= Voters(kept[i].participants))
      {
        assert kept[i] in kept;
        RetainMember(b.proofs, p, kept[i]);
        forall x | x in Voters(kept[i].participants) ensures x in Coverage(kept) {
          CoverageMember(kept, x);
        }
      }
    }
  }

  /** Adding the same proof again changes nothing. */
  lemma SameProofAgain(b: Batch, p: Proof)
    ensures WithProof(WithProof(b, p), p) == WithProof(b, p)
  {
    var kept := Retain(b.proofs, p);
    forall q | q in kept + [p] ensures Keeps(q, p) {
      if q in kept { RetainMember(b.proofs, p, q); }
    }
    RetainAll(kept, p);
    RetainAll(kept + [p], p);
    CoverageAppend(kept, p);
  }

  lemma SignatureCoverage(b: Batch, i: nat, signature: nat)
    requires BatchOk(b)
    ensures var b' := WithSignature(b, i, signature);
            Total(b') == Total(b) + {i} && BatchOk(b')
  {
  }

  lemma AggregateCoverage(b: Batch, r: Batch)
    requires IsAggregate(b, r)
    ensures Coverage(r.proofs) == Total(b) && Total(r) == Total(b) && BatchOk(r)
  {
    assert r.proofs[..0] == [];
    assert Coverage(r.proofs[..0]) == {};
  }

  // ----- whole runs

  datatype Op =
    | AddSignature(validator: nat, signature: nat)
    | AddProof(proof: Proof)
    | Aggregate(result: Batch)

  /** Everyone an operation brings in. */
  function Mentioned(op: Op): set<nat> {
    match op
    case AddSignature(i, _) => {i}
    case AddProof(p) => Voters(p.participants)
    case Aggregate(_) => {}
  }

  ghost function MentionedInAll(ops: seq<Op>): set<nat> {
    if ops == [] then {} else MentionedInAll(ops[..|ops| - 1]) + Mentioned(ops[|ops| - 1])
  }

  /** `b'` is the batch after the operations; aggregation is any batch with the right voters. */
  ghost predicate RunsTo(b: Batch, ops: seq<Op>, b': Batch) {
    if ops == [] then b' == b
    else
      var front, last := ops[..|ops| - 1], ops[|ops| - 1];
      exists mid :: RunsTo(b, front, mid) && StepsTo(mid, last, b')
  }

  ghost predicate StepsTo(b: Batch, op: Op, b': Batch) {
    match op
    case AddSignature(i, s) => b' == WithSignature(b, i, s)
    case AddProof(p) => b' == WithProof(b, p)
    case Aggregate(r) => b' == r && IsAggregate(b, r)
  }

  /** Conservation: after any operations the batch speaks for exactly the voters that were brought in. */
  lemma {:induction false} NoVoterIsLostOrInvented(data: AttestationData, ops: seq<Op>, b: Batch)
    requires RunsTo(Batch(data, map[], []), ops, b)
    ensures Total(b) == MentionedInAll(ops) && BatchOk(b)
  {
    if ops != [] {
      var mid :| RunsTo(Batch(data, map[], []), ops[..|ops| - 1], mid) && StepsTo(mid, ops[|ops| - 1], b);
      NoVoterIsLostOrInvented(data, ops[..|ops| - 1], mid);
      match ops[|ops| - 1] {
        case AddSignature(i, s) => SignatureCoverage(mid, i, s);
        case AddProof(p) => ProofCoverage(mid, p);
        case Aggregate(r) => AggregateCoverage(mid, r);
      }
    }
  }

  // ----- the pool

  /** The batch of a vote, created on first use. */
  function BatchOf(batches: map<Root, Batch>, key: Root, data: AttestationData): Batch {
    if key in batches then batches[key] else Batch(data, map[], [])
  }

  /** Skipped by aggregation: nothing to merge. */
  predicate NothingToMerge(b: Batch) {
    b.signatures == map[] && |b.proofs| <= 1
  }

  /** Aggregation takes the batch up: its target state is known and there is something to merge. */
  predicate Mergeable(b: Batch, validatorCount: Root -> Option<nat>) {
    !NothingToMerge(b) && validatorCount(b.data.target.root).Some?
  }

  /** Aggregation would look up a validator that the target state does not have. */
  ghost predicate NamesUnknown(b: Batch, validatorCount: Root -> Option<nat>) {
    Mergeable(b, validatorCount) && exists i :: i in Total(b) && i >= validatorCount(b.data.target.root).value
  }

  /** What aggregation makes of one batch, and the proof it returns for it. */
  ghost predicate Merged(b: Batch, b': Batch, validatorCount: Root -> Option<nat>, out: map<Root, Proof>, k: Root) {
    if Mergeable(b, validatorCount) then IsAggregate(b, b') && k in out && out[k] == b'.proofs[0]
    else b' == b && k !in out
  }

  /** The batches outside `rest` are done, the others untouched. */
  ghost predicate MergedSoFar(before: map<Root, Batch>, after: map<Root, Batch>, validatorCount: Root -> Option<nat>,
                              out: map<Root, Proof>, rest: set<Root>) {
    && after.Keys == before.Keys && rest <= before.Keys && out.Keys <= before.Keys - rest
    && forall k | k in before ::
         if k in rest then after[k] == before[k] else Merged(before[k], after[k], validatorCount, out, k)
  }

  lemma MergeOne(before: map<Root, Batch>, after: map<Root, Batch>, validatorCount: Root -> Option<nat>,
                 out: map<Root, Proof>, rest: set<Root>, key: Root, merged: Batch)
    requires MergedSoFar(before, after, validatorCount, out, rest) && key in rest
    requires Mergeable(before[key], validatorCount) && IsAggregate(before[key], merged)
    ensures MergedSoFar(before, after[key := merged], validatorCount, out[key := merged.proofs[0]], rest - {key})
  {
  }

  lemma BatchesStayOk(batches: map<Root, Batch>, dataRoot: AttestationData -> Root, key: Root, merged: Batch)
    requires BatchesOk(batches, dataRoot) && key in batches && IsAggregate(batches[key], merged)
    ensures BatchesOk(batches[key := merged], dataRoot)
  {
    AggregateCoverage(batches[key], merged);
  }

  /** Every batch is well formed and stored under the hash of its data. */
  ghost predicate BatchesOk(batches: map<Root, Batch>, dataRoot: AttestationData -> Root) {
    forall k | k in batches :: BatchOk(batches[k]) && dataRoot(batches[k].data) == k
  }

  method RetainProofs(proofs: seq<Proof>, p: Proof) returns (kept: seq<Proof>)
    ensures kept == Retain(proofs, p)
  {
    kept := [];
    for i := 0 to |proofs|
      invariant kept == Retain(proofs[..i], p)
    {
      assert proofs[..i + 1][..i] == proofs[..i];
      var inside := IsSubset(proofs[i].participants, p.participants);
      var covers := IsSubset(p.participants, proofs[i].participants);
      if !inside || covers {
        kept := kept + [proofs[i]];
      }
    }
    assert proofs[..|proofs|] == proofs;
  }

  method CollectParticipants(start: seq<bool>, proofs: seq<Proof>) returns (bits: seq<bool>)
    ensures Voters(bits) == Voters(start) + Coverage(proofs)
  {
    bits := start;
    for i := 0 to |proofs|
      invariant Voters(bits) == Voters(start) + Coverage(proofs[..i])
    {
      assert proofs[..i + 1][..i] == proofs[..i];
      bits := AddAll(bits, proofs[i].participants);
    }
    assert proofs[..|proofs|] == proofs;
  }

  /** The body of `addSignatureToAggregate` on one batch. */
  method PutSignature(batch: Batch, validator: nat, signature: nat) returns (r: Batch)
    ensures r == WithSignature(batch, validator, signature)
  {
    for i := 0 to |batch.proofs|
      invariant validator !in Coverage(batch.proofs[..i])
    {
      assert batch.proofs[..i + 1][..i] == batch.proofs[..i];
      if Contains(batch.proofs[i].participants, validator) {
        CoverageMember(batch.proofs, validator);
        return batch;
      }
    }
    assert batch.proofs[..|batch.proofs|] == batch.proofs;
    return batch.(signatures := batch.signatures[validator := signature]);
  }

  /** The body of `addProofToAggregate` on one batch. */
  method PutProof(batch: Batch, proof: Proof) returns (r: Batch)
    ensures r == WithProof(batch, proof)
  {
    var kept := RetainProofs(batch.proofs, proof);
    var existing := CollectParticipants([], kept);
    var covered := IsSubset(proof.participants, existing);
    if covered {
      return batch.(proofs := kept);
    }
    var rest := EraseSignatures(batch.signatures, proof.participants);
    return Batch(batch.data, rest, kept + [proof]);
  }

  method EraseSignatures(signatures: map<nat, nat>, participants: seq<bool>) returns (rest: map<nat, nat>)
    ensures rest == signatures - Voters(participants)
  {
    rest := signatures;
    for i := 0 to |participants|
      invariant rest == signatures - Voters(participants[..i])
    {
      assert Voters(participants[..i + 1]) == Voters(participants[..i]) + if participants[i] then {i} else {};
      if participants[i] {
        rest := rest - {i};
      }
    }
    assert participants[..|participants|] == participants;
  }

  /** The pool after one proof, which is dropped when its target is below finality. */
  ghost function PoolWithProof(m: map<Root, Batch>, key: Root, finalizedSlot: nat, data: AttestationData, p: Proof)
    : map<Root, Batch>
  {
    if data.target.slot < finalizedSlot then m else m[key := WithProof(BatchOf(m, key, data), p)]
  }

  lemma AddedTwice(m: map<Root, Batch>, key: Root, finalizedSlot: nat, data: AttestationData, p: Proof)
    ensures var once := PoolWithProof(m, key, finalizedSlot, data, p);
            PoolWithProof(once, key, finalizedSlot, data, p) == once
  {
    SameProofAgain(BatchOf(m, key, data), p);
  }

  lemma NoVoters(bits: seq<bool>)
    ensures Voters(bits) != {} <==> exists j :: 0 <= j < |bits| && bits[j]
  {
    if j :| 0 <= j < |bits| && bits[j] {
      assert j in Voters(bits);
    }
  }

  class ProofPool {
    var batches: map<Root, Batch>
    /** `sszHash` of an attestation. */
    const dataRoot: AttestationData -> Root

    ghost predicate Valid()
      reads this
    {
      BatchesOk(batches, dataRoot)
    }

    constructor (dataRoot: AttestationData -> Root)
      ensures Valid() && batches == map[] && this.dataRoot == dataRoot
    {
      batches := map[];
      this.dataRoot := dataRoot;
    }

    /** Keeps a raw signature unless some proof already covers its validator. */
    method AddSignature(finalizedSlot: nat, data: AttestationData, validator: nat, signature: nat)
      requires Valid()
      modifies this`batches
      ensures Valid()
      ensures data.target.slot < finalizedSlot ==> batches == old(batches)
      ensures data.target.slot >= finalizedSlot ==>
                var key := dataRoot(data);
                batches == old(batches)[key := WithSignature(BatchOf(old(batches), key, data), validator, signature)]
    {
      if data.target.slot < finalizedSlot {
        return;
      }
      var key := dataRoot(data);
      var batch := BatchOf(batches, key, data);
      EmptyBatchOk(data);
      SignatureCoverage(batch, validator, signature);
      batch := PutSignature(batch, validator, signature);
      batches := batches[key := batch];
    }

    /** Adds a proof: drops proofs strictly inside it, and stores it unless the others cover it. */
    method AddProof(finalizedSlot: nat, data: AttestationData, proof: Proof)
      requires Valid()
      modifies this`batches
      ensures Valid()
      ensures batches == PoolWithProof(old(batches), dataRoot(data), finalizedSlot, data, proof)
    {
      if data.target.slot < finalizedSlot {
        return;
      }
      var key := dataRoot(data);
      var batch := BatchOf(batches, key, data);
      EmptyBatchOk(data);
      ProofCoverage(batch, proof);
      batch := PutProof(batch, proof);
      batches := batches[key := batch];
    }

    /**
     * `onAggregatedAttestation` adds the proof once per participant; the effect is that of adding it
     * once, or not at all without participants.
     */
    method AddForEachParticipant(finalizedSlot: nat, data: AttestationData, proof: Proof)
      requires Valid()
      modifies this`batches
      ensures Valid()
      ensures batches == if Voters(proof.participants) == {} then old(batches)
                         else PoolWithProof(old(batches), dataRoot(data), finalizedSlot, data, proof)
    {
      var added := false;
      AddedTwice(batches, dataRoot(data), finalizedSlot, data, proof);
      for i := 0 to |proof.participants|
        invariant Valid()
        invariant added <==> exists j :: 0 <= j < i && proof.participants[j]
        invariant batches == if added then PoolWithProof(old(batches), dataRoot(data), finalizedSlot, data, proof)
                             else old(batches)
      {
        if proof.participants[i] {
          AddProof(finalizedSlot, data, proof);
          added := true;
        }
      }
      NoVoters(proof.participants);
    }

    /**
     * `aggregateSignatures`: every batch with a known target state and something to merge becomes a
     * single proof for everyone it spoke for; `merge` is the signature scheme. None is the exception for
     * a validator that the target state does not have; batches merged before it stay merged.
     */
    method AggregateSignatures(validatorCount: Root -> Option<nat>, merge: Batch -> nat)
      returns (r: Option<map<Root, Proof>>)
      requires Valid()
      modifies this`batches
      ensures Valid() && batches.Keys == old(batches.Keys)
      ensures r.Some? <==> forall k | k in old(batches) :: !NamesUnknown(old(batches)[k], validatorCount)
      ensures r.Some? ==> MergedSoFar(old(batches), batches, validatorCount, r.value, {})
      ensures forall k | k in batches :: batches[k] == old(batches)[k] || IsAggregate(old(batches)[k], batches[k])
    {
      var out: map<Root, Proof> := map[];
      var rest := batches.Keys;
      while rest != {}
        invariant Valid() && MergedSoFar(old(batches), batches, validatorCount, out, rest)
        invariant forall k | k in batches && k !in rest :: !NamesUnknown(old(batches)[k], validatorCount)
        decreases rest
      {
        var key :| key in rest;
        var batch := batches[key];
        if Mergeable(batch, validatorCount) {
          var merged := MergeBatch(batch, validatorCount(batch.data.target.root).value, merge);
          if merged.None? {
            assert NamesUnknown(old(batches)[key], validatorCount);
            return None;
          }
          MergeOne(old(batches), batches, validatorCount, out, rest, key, merged.value);
          BatchesStayOk(batches, dataRoot, key, merged.value);
          batches := batches[key := merged.value];
          out := out[key := merged.value.proofs[0]];
        }
        rest := rest - {key};
      }
      return Some(out);
    }

    /** Drops the batches of votes whose target is finalized. */
    method Prune(finalizedSlot: nat)
      requires Valid()
      modifies this`batches
      ensures Valid()
      ensures batches == map k | k in old(batches) && old(batches)[k].data.target.slot > finalizedSlot :: old(batches)[k]
    {
      batches := map k | k in batches && batches[k].data.target.slot > finalizedSlot :: batches[k];
    }
  }

  lemma EmptyBatchOk(data: AttestationData)
    ensures BatchOk(Batch(data, map[], []))
  {
  }

  /** Looks up the public key of every participant; false is the exception for an unknown one. */
  method LookUpKeys(participants: seq<bool>, n: nat) returns (ok: bool)
    ensures ok <==> forall i | i in Voters(participants) :: i < n
  {
    for i := 0 to |participants|
      invariant forall j | 0 <= j < i && participants[j] :: j < n
    {
      if participants[i] && i >= n {
        assert i in Voters(participants);
        return false;
      }
    }
    return true;
  }

  method MergeBatch(batch: Batch, n: nat, merge: Batch -> nat) returns (merged: Option<Batch>)
    ensures merged.Some? <==> forall i | i in Total(batch) :: i < n
    ensures merged.Some? ==> IsAggregate(batch, merged.value)
  {
    var bits: seq<bool> := [];
    var rest := batch.signatures.Keys;
    while rest != {}
      invariant rest <= batch.signatures.Keys && Voters(bits) == batch.signatures.Keys - rest
      decreases rest
    {
      var validator :| validator in rest;
      bits := Add(bits, validator);
      rest := rest - {validator};
    }
    bits := CollectParticipants(bits, batch.proofs);
    assert Voters(bits) == Total(batch);
    var known := LookUpKeys(bits, n);
    if !known {
      return None;
    }
    merged := Some(Batch(batch.data, map[], [Proof(bits, merge(batch))]));
  }
}
