/**
 * The reference model of justification and finality: a chain of roots and the log of every vote that
 * was ever counted. Nothing is cached, shifted, erased or pruned; a slot above finality is justified
 * when, and only when, the log holds a two-thirds quorum for the root at that slot.
 */
module Ledgers {
  import opened Types
  import opened Justifiable
  import opened AggregationBits

  datatype Vote = Vote(source: Checkpoint, target: Checkpoint, voters: set<nat>)

  datatype Ledger = Ledger(history: seq<Root>, justified: Checkpoint, finalized: Checkpoint, log: seq<Vote>)

  datatype CastError = SourceOutOfRange | TargetOutOfRange | UnknownVoter | BelowFinality

  datatype Cast = Accepted(ledger: Ledger) | Rejected(error: CastError)

  /** The distinct validators among all counted votes for a root. */
  ghost function Supporters(log: seq<Vote>, root: Root): set<nat> {
    if log == [] then {}
    else
      var last := log[|log| - 1];
      Supporters(log[..|log| - 1], root) + if last.target.root == root then last.voters else {}
  }

  ghost predicate Quorum(n: nat, log: seq<Vote>, root: Root) {
    3 * |Supporters(log, root)| >= 2 * n
  }

  ghost predicate IsJustified(n: nat, l: Ledger, slot: nat) {
    || slot <= l.finalized.slot
    || (slot < |l.history| && l.history[slot] != ZERO_ROOT && Quorum(n, l.log, l.history[slot]))
  }

  /** A checkpoint names the block that the chain has at that slot. */
  ghost predicate OnChain(l: Ledger, c: Checkpoint) {
    c.slot < |l.history| && c.root != ZERO_ROOT && l.history[c.slot] == c.root
  }

  ghost predicate Countable(n: nat, l: Ledger, v: Vote) {
    && OnChain(l, v.source) && OnChain(l, v.target)
    && v.source.slot < v.target.slot
    && IsJustified(n, l, v.source.slot)
    && !IsJustified(n, l, v.target.slot)
    && JustifiableAfter(l.finalized.slot, v.target.slot)
  }

  ghost predicate KnownVoters(n: nat, voters: set<nat>) {
    forall i | i in voters :: i < n
  }

  ghost function Count(n: nat, l: Ledger, v: Vote): Ledger {
    var l' := l.(log := l.log + [v]);
    if !Quorum(n, l'.log, v.target.root) then l'
    else if AnyJustifiableBetween(l.finalized.slot, v.source.slot, v.target.slot)
    then l'.(justified := v.target)
    else l'.(justified := v.target, finalized := v.source)
  }

  /** Counting the vote scans from a slot below finality. */
  ghost predicate ScansBelow(n: nat, l: Ledger, v: Vote) {
    Quorum(n, l.log + [v], v.target.root) && v.source.slot + 1 < l.finalized.slot
  }

  /** A countable vote; with `asserts` a scan from below finality is fatal. */
  ghost function CountCast(asserts: bool, n: nat, l: Ledger, v: Vote): Cast {
    if !KnownVoters(n, v.voters) then Rejected(UnknownVoter)
    else if asserts && ScansBelow(n, l, v) then Rejected(BelowFinality)
    else Accepted(Count(n, l, v))
  }

  ghost function CastVote(asserts: bool, n: nat, l: Ledger, v: Vote): Cast {
    if v.source.slot >= |l.history| then Rejected(SourceOutOfRange)
    else if v.target.slot >= |l.history| then Rejected(TargetOutOfRange)
    else if !Countable(n, l, v) then Accepted(l)
    else CountCast(asserts, n, l, v)
  }

  ghost function CastAll(asserts: bool, n: nat, l: Ledger, votes: seq<Vote>): Cast {
    if votes == [] then Accepted(l)
    else
      var front := CastAll(asserts, n, l, votes[..|votes| - 1]);
      if front.Rejected? then front else CastVote(asserts, n, front.ledger, votes[|votes| - 1])
  }

  ghost function Genesis(): Ledger {
    Ledger([], Checkpoint(ZERO_ROOT, 0), Checkpoint(ZERO_ROOT, 0), [])
  }

  /** A block at `slot` puts its parent at the parent's slot, and empty slots after it. */
  ghost function Extend(l: Ledger, parentRoot: Root, slot: nat): Ledger
    requires slot > |l.history|
  {
    var history := l.history + [parentRoot] + seq(slot - |l.history| - 1, _ => ZERO_ROOT);
    if l.history == []
    then Ledger(history, l.justified.(root := parentRoot), l.finalized.(root := parentRoot), l.log)
    else l.(history := history)
  }

  // ----- supporters

  lemma {:induction false} SupportersAppend(log: seq<Vote>, v: Vote, root: Root)
    ensures Supporters(log + [v], root)
         == Supporters(log, root) + if v.target.root == root then v.voters else {}
  {
    assert (log + [v])[..|log|] == log;
  }

  /** Who supports a root, read off the log directly. */
  lemma {:induction false} SupportersAreTheVoters(log: seq<Vote>, root: Root, i: nat)
    ensures i in Supporters(log, root)
       <==> exists k :: 0 <= k < |log| && log[k].target.root == root && i in log[k].voters
  {
    if log != [] {
      var front := log[..|log| - 1];
      SupportersAreTheVoters(front, root, i);
      if k :| 0 <= k < |log| && log[k].target.root == root && i in log[k].voters {
        if k < |front| { assert front[k] == log[k]; }
      }
      if i in Supporters(front, root) {
        var k :| 0 <= k < |front| && front[k].target.root == root && i in front[k].voters;
        assert log[k] == front[k];
      }
    }
  }

  lemma {:induction false} NoVotesNoSupporters(log: seq<Vote>, root: Root)
    requires forall k | 0 <= k < |log| :: log[k].target.root != root
    ensures Supporters(log, root) == {}
  {
    if log != [] {
      NoVotesNoSupporters(log[..|log| - 1], root);
    }
  }

  lemma {:induction false} SupportersBounded(n: nat, log: seq<Vote>, root: Root)
    requires forall k | 0 <= k < |log| :: KnownVoters(n, log[k].voters)
    ensures KnownVoters(n, Supporters(log, root))
  {
    if log != [] {
      SupportersBounded(n, log[..|log| - 1], root);
    }
  }

  // ----- the invariant of every chain

  /** No block appears at two slots. */
  ghost predicate NoRepeats(history: seq<Root>) {
    forall i, j | 0 <= i < j < |history| && history[i] != ZERO_ROOT :: history[i] != history[j]
  }

  ghost predicate LogSound(n: nat, l: Ledger) {
    forall k | 0 <= k < |l.log| ::
      && OnChain(l, l.log[k].target) && OnChain(l, l.log[k].source)
      && l.log[k].source.slot < l.log[k].target.slot
      && KnownVoters(n, l.log[k].voters)
  }

  /** A checkpoint above genesis carries a quorum. */
  ghost predicate Backed(n: nat, l: Ledger, c: Checkpoint) {
    c.slot == 0 || Quorum(n, l.log, c.root)
  }

  ghost predicate Sound(n: nat, l: Ledger) {
    && NoRepeats(l.history)
    && LogSound(n, l)
    && l.finalized.slot <= l.justified.slot
    && Backed(n, l, l.finalized) && Backed(n, l, l.justified)
    && if l.history == [] then l.justified.slot == 0
       else
         && l.justified.slot < |l.history|
         && l.history[l.finalized.slot] == l.finalized.root
         && l.history[l.justified.slot] == l.justified.root
  }

  /** What one ledger keeps of another: finality only advances, no slot loses its justification. */
  ghost predicate Advances(n: nat, l: Ledger, l': Ledger) {
    && l.finalized.slot <= l'.finalized.slot
    && l.history <= l'.history
    && l.log <= l'.log
    && (l.history != [] && l'.finalized.slot == l.finalized.slot ==> l'.finalized == l.finalized)
    && forall s :: IsJustified(n, l, s) ==> IsJustified(n, l', s)
  }

  lemma QuorumGrows(n: nat, log: seq<Vote>, v: Vote, root: Root)
    ensures Quorum(n, log, root) ==> Quorum(n, log + [v], root)
  {
    SupportersAppend(log, v, root);
    SubsetSize(Supporters(log, root), Supporters(log + [v], root));
  }

  /** A vote that finalizes its source never moves finality back, whatever its source is. */
  lemma CountAdvancesFinality(n: nat, l: Ledger, v: Vote)
    requires Countable(n, l, v)
    ensures l.finalized.slot <= Count(n, l, v).finalized.slot
  {
    if v.source.slot < l.finalized.slot {
      ScanAcrossFinality(l.finalized.slot, v.source.slot, v.target.slot);
    }
  }

  lemma LogSoundAppend(n: nat, l: Ledger, l': Ledger, v: Vote)
    requires LogSound(n, l) && l'.history == l.history && l'.log == l.log + [v]
    requires OnChain(l, v.source) && OnChain(l, v.target) && v.source.slot < v.target.slot
    requires KnownVoters(n, v.voters)
    ensures LogSound(n, l')
  {
    forall k | 0 <= k < |l'.log|
      ensures && OnChain(l', l'.log[k].target) && OnChain(l', l'.log[k].source)
              && l'.log[k].source.slot < l'.log[k].target.slot
              && KnownVoters(n, l'.log[k].voters)
    {
      if k < |l.log| { assert l'.log[k] == l.log[k]; } else { assert l'.log[k] == v; }
    }
  }

  /** No slot loses its justification to a counted vote. */
  lemma CountKeepsJustified(n: nat, l: Ledger, v: Vote)
    requires Countable(n, l, v)
    ensures forall s: nat :: IsJustified(n, l, s) ==> IsJustified(n, Count(n, l, v), s)
  {
    var l' := Count(n, l, v);
    CountAdvancesFinality(n, l, v);
    forall s: nat | IsJustified(n, l, s) ensures IsJustified(n, l', s) {
      if s > l.finalized.slot { QuorumGrows(n, l.log, v, l.history[s]); }
    }
  }

  /** A counted vote keeps the invariant and loses nothing. */
  lemma CountKeepsSound(n: nat, l: Ledger, v: Vote)
    requires Sound(n, l) && Countable(n, l, v) && KnownVoters(n, v.voters)
    ensures Sound(n, Count(n, l, v))
    ensures Advances(n, l, Count(n, l, v))
  {
    var l' := Count(n, l, v);
    CountAdvancesFinality(n, l, v);
    LogSoundAppend(n, l, l', v);
    CountKeepsJustified(n, l, v);
    QuorumGrows(n, l.log, v, l.finalized.root);
    QuorumGrows(n, l.log, v, l.justified.root);
    QuorumGrows(n, l.log, v, v.source.root);
  }

  lemma AdvancesSelf(n: nat, l: Ledger)
    ensures Advances(n, l, l)
  {
  }

  lemma CastKeepsSound(asserts: bool, n: nat, l: Ledger, v: Vote)
    requires Sound(n, l)
    ensures var c := CastVote(asserts, n, l, v);
            c.Accepted? ==> Sound(n, c.ledger) && Advances(n, l, c.ledger) && c.ledger.history == l.history
  {
    var c := CastVote(asserts, n, l, v);
    if c.Accepted? {
      if c.ledger == l {
        AdvancesSelf(n, l);
      } else {
        CountKeepsSound(n, l, v);
        assert c.ledger == Count(n, l, v);
      }
    }
  }

  lemma {:induction false} CastAllKeepsSound(asserts: bool, n: nat, l: Ledger, votes: seq<Vote>)
    requires Sound(n, l)
    ensures var c := CastAll(asserts, n, l, votes);
            c.Accepted? ==> Sound(n, c.ledger) && Advances(n, l, c.ledger) && c.ledger.history == l.history
  {
    if votes != [] {
      var front := CastAll(asserts, n, l, votes[..|votes| - 1]);
      CastAllKeepsSound(asserts, n, l, votes[..|votes| - 1]);
      if front.Accepted? {
        CastKeepsSound(asserts, n, front.ledger, votes[|votes| - 1]);
      }
    }
  }

  /** A finalized checkpoint above genesis is the source of a counted vote whose target has a quorum. */
  ghost predicate Linked(n: nat, l: Ledger) {
    l.finalized.slot == 0
    || (l.history != []
        && exists k :: 0 <= k < |l.log| && l.log[k].source == l.finalized && Quorum(n, l.log, l.log[k].target.root))
  }

  lemma ExtendKeepsLinked(n: nat, l: Ledger, parentRoot: Root, slot: nat)
    requires Linked(n, l) && slot > |l.history|
    ensures Linked(n, Extend(l, parentRoot, slot))
  {
  }

  lemma LinkedSuccessor(n: nat, l: Ledger) returns (vote: Vote)
    requires Sound(n, l) && Linked(n, l) && l.finalized.slot > 0
    ensures vote in l.log && vote.source == l.finalized
    ensures OnChain(l, vote.target) && l.finalized.slot < vote.target.slot && l.finalized.root != ZERO_ROOT
    ensures Quorum(n, l.log, vote.target.root) && Quorum(n, l.log, l.finalized.root)
  {
    var k :| 0 <= k < |l.log| && l.log[k].source == l.finalized && Quorum(n, l.log, l.log[k].target.root);
    vote := l.log[k];
  }

  lemma CountKeepsLinked(n: nat, l: Ledger, v: Vote)
    requires Linked(n, l) && l.history != []
    ensures Linked(n, Count(n, l, v))
  {
    var l' := Count(n, l, v);
    if l'.finalized == l.finalized {
      if k :| 0 <= k < |l.log| && l.log[k].source == l.finalized && Quorum(n, l.log, l.log[k].target.root) {
        QuorumGrows(n, l.log, v, l.log[k].target.root);
        assert l'.log[k] == l.log[k];
      }
    } else {
      assert l'.log[|l.log|] == v;
    }
  }

  lemma {:induction false} CastAllKeepsLinked(asserts: bool, n: nat, l: Ledger, votes: seq<Vote>)
    requires Linked(n, l)
    ensures CastAll(asserts, n, l, votes).Accepted? ==> Linked(n, CastAll(asserts, n, l, votes).ledger)
  {
    if votes != [] {
      var front := CastAll(asserts, n, l, votes[..|votes| - 1]);
      CastAllKeepsLinked(asserts, n, l, votes[..|votes| - 1]);
      if front.Accepted? {
        if front.ledger.history != [] { CountKeepsLinked(n, front.ledger, votes[|votes| - 1]); }
      }
    }
  }

  lemma ExtendHistory(l: Ledger, parentRoot: Root, slot: nat)
    requires slot > |l.history|
    ensures var history := Extend(l, parentRoot, slot).history;
            && |history| == slot && l.history <= history && history[|l.history|] == parentRoot
            && (forall i | 0 <= i < |l.history| :: history[i] == l.history[i])
            && (forall i | |l.history| < i < slot :: history[i] == ZERO_ROOT)
  {
  }

  lemma ExtendAdvances(n: nat, l: Ledger, parentRoot: Root, slot: nat)
    requires slot > |l.history|
    ensures Advances(n, l, Extend(l, parentRoot, slot))
  {
    ExtendHistory(l, parentRoot, slot);
  }

  lemma ExtendLogSound(n: nat, l: Ledger, parentRoot: Root, slot: nat)
    requires LogSound(n, l) && slot > |l.history|
    ensures LogSound(n, Extend(l, parentRoot, slot))
  {
    var l' := Extend(l, parentRoot, slot);
    ExtendHistory(l, parentRoot, slot);
    forall k | 0 <= k < |l.log|
      ensures OnChain(l', l.log[k].target) && OnChain(l', l.log[k].source)
    {
      assert OnChain(l, l.log[k].target) && OnChain(l, l.log[k].source);
    }
  }

  lemma ExtendKeepsSound(n: nat, l: Ledger, parentRoot: Root, slot: nat)
    requires Sound(n, l) && slot > |l.history|
    requires parentRoot == ZERO_ROOT || parentRoot !in l.history
    ensures Sound(n, Extend(l, parentRoot, slot))
    ensures Advances(n, l, Extend(l, parentRoot, slot))
    ensures |Extend(l, parentRoot, slot).history| == slot
  {
    ExtendHistory(l, parentRoot, slot);
    ExtendLogSound(n, l, parentRoot, slot);
    ExtendAdvances(n, l, parentRoot, slot);
  }

  /** Two checkpoints with a quorum on one chain were voted for by at least a third of the validators in common. */
  lemma QuorumsOverlap(n: nat, l: Ledger, a: Root, b: Root)
    requires Sound(n, l) && Quorum(n, l.log, a) && Quorum(n, l.log, b)
    ensures 3 * |Supporters(l.log, a) * Supporters(l.log, b)| >= n
  {
    var sa, sb := Supporters(l.log, a), Supporters(l.log, b);
    SupportersBounded(n, l.log, a);
    SupportersBounded(n, l.log, b);
    BoundedSize(sa + sb, n);
    assert |sa + sb| == |sa| + |sb| - |sa * sb|;
  }

  lemma {:induction false} BoundedSize(s: set<nat>, n: nat)
    requires KnownVoters(n, s)
    ensures |s| <= n
    decreases n
  {
    if n == 0 {
      assert s == {};
    } else {
      BoundedSize(s - {n - 1}, n - 1);
      assert s <= (s - {n - 1}) + {n - 1};
      SubsetSize(s, (s - {n - 1}) + {n - 1});
    }
  }

  // ----- scans from below finality

  /** The k-th vote is reached, is countable, and scans from below finality. */
  ghost predicate AssertsAt(n: nat, l: Ledger, votes: seq<Vote>, k: nat)
    requires k < |votes|
  {
    var c := CastAll(true, n, l, votes[..k]);
    c.Accepted? && Countable(n, c.ledger, votes[k]) && KnownVoters(n, votes[k].voters)
    && ScansBelow(n, c.ledger, votes[k])
  }

  lemma AssertsLast(n: nat, l: Ledger, votes: seq<Vote>, m: nat)
    requires |votes| == m + 1
    ensures CastAll(true, n, l, votes) == Rejected(BelowFinality)
       <==> CastAll(true, n, l, votes[..m]) == Rejected(BelowFinality) || AssertsAt(n, l, votes, m)
  {
  }

  lemma AssertsPrefix(n: nat, l: Ledger, votes: seq<Vote>, m: nat, k: nat)
    requires k < m <= |votes|
    ensures AssertsAt(n, l, votes[..m], k) <==> AssertsAt(n, l, votes, k)
  {
    assert votes[..m][..k] == votes[..k];
  }

  /** Some vote of the list scans from below finality. */
  ghost predicate SomeAsserts(n: nat, l: Ledger, votes: seq<Vote>) {
    exists k :: 0 <= k < |votes| && AssertsAt(n, l, votes, k)
  }

  lemma SomeAssertsMore(n: nat, l: Ledger, votes: seq<Vote>, m: nat)
    requires m <= |votes| && SomeAsserts(n, l, votes[..m])
    ensures SomeAsserts(n, l, votes)
  {
    var k :| 0 <= k < m && AssertsAt(n, l, votes[..m], k);
    AssertsPrefix(n, l, votes, m, k);
  }

  lemma SomeAssertsLess(n: nat, l: Ledger, votes: seq<Vote>, m: nat)
    requires |votes| == m + 1 && SomeAsserts(n, l, votes)
    ensures SomeAsserts(n, l, votes[..m]) || AssertsAt(n, l, votes, m)
  {
    var k :| 0 <= k < |votes| && AssertsAt(n, l, votes, k);
    if k < m {
      AssertsPrefix(n, l, votes, m, k);
      assert SomeAsserts(n, l, votes[..m]);
    } else {
      assert k == m;
    }
  }

  /** With assertions the votes of a block are fatal exactly when one of them scans from below finality. */
  lemma {:induction false} AssertsExactly(n: nat, l: Ledger, votes: seq<Vote>)
    ensures CastAll(true, n, l, votes) == Rejected(BelowFinality) <==> SomeAsserts(n, l, votes)
  {
    if votes != [] {
      var m := |votes| - 1;
      AssertsExactly(n, l, votes[..m]);
      AssertsLast(n, l, votes, m);
      if SomeAsserts(n, l, votes[..m]) {
        SomeAssertsMore(n, l, votes, m);
      } else if SomeAsserts(n, l, votes) {
        SomeAssertsLess(n, l, votes, m);
      }
    }
  }

  lemma {:induction false} NoAssertionWhenOff(n: nat, l: Ledger, votes: seq<Vote>)
    ensures CastAll(false, n, l, votes) != Rejected(BelowFinality)
  {
    if votes != [] {
      NoAssertionWhenOff(n, l, votes[..|votes| - 1]);
    }
  }

  lemma AssertsOnlyWhenOn(asserts: bool, n: nat, l: Ledger, votes: seq<Vote>)
    ensures CastAll(asserts, n, l, votes) == Rejected(BelowFinality) <==> asserts && SomeAsserts(n, l, votes)
  {
    if asserts {
      AssertsExactly(n, l, votes);
    } else {
      NoAssertionWhenOff(n, l, votes);
    }
  }

  /** Without a scan from below finality assertions make no difference. */
  lemma {:induction false} BuildsAgree(n: nat, l: Ledger, votes: seq<Vote>)
    ensures CastAll(true, n, l, votes) == Rejected(BelowFinality)
         || CastAll(true, n, l, votes) == CastAll(false, n, l, votes)
  {
    if votes != [] {
      BuildsAgree(n, l, votes[..|votes| - 1]);
    }
  }

  /** The single validator of a chain votes for a root without votes. */
  lemma LoneVote(l: Ledger, v: Vote)
    requires v.voters == {0} && Supporters(l.log, v.target.root) == {}
    requires OnChain(l, v.source) && OnChain(l, v.target) && IsJustified(1, l, v.source.slot)
    requires v.source.slot < v.target.slot && l.finalized.slot < v.target.slot
    requires v.target.slot - l.finalized.slot <= 5
    ensures Countable(1, l, v) && KnownVoters(1, v.voters) && Quorum(1, l.log + [v], v.target.root)
  {
    SupportersAppend(l.log, v, v.target.root);
  }

  /** Blocks at slots 0, 2, 3 and 4, and no votes. */
  ghost predicate FreshChain(l: Ledger) {
    && |l.history| == 5 && NoRepeats(l.history) && l.log == []
    && l.finalized == Checkpoint(l.history[0], 0)
    && l.history[0] != ZERO_ROOT && l.history[2] != ZERO_ROOT && l.history[3] != ZERO_ROOT && l.history[4] != ZERO_ROOT
  }

  /** The vote of validator 0 between two slots of the chain. */
  ghost function Between(l: Ledger, source: nat, target: nat): Vote
    requires source < |l.history| && target < |l.history|
  {
    Vote(Checkpoint(l.history[source], source), Checkpoint(l.history[target], target), {0})
  }

  lemma FirstVote(asserts: bool, l: Ledger)
    requires FreshChain(l)
    ensures var v := Between(l, 0, 2); CastVote(asserts, 1, l, v) == Accepted(l.(log := [v], justified := v.target))
  {
    LoneVote(l, Between(l, 0, 2));
    assert JustifiableAfter(0, 1);
  }

  lemma SecondVote(asserts: bool, l: Ledger)
    requires FreshChain(l)
    ensures var v, w := Between(l, 0, 2), Between(l, 2, 3);
            CastVote(asserts, 1, l.(log := [v], justified := v.target), w) ==
            Accepted(l.(log := [v, w], justified := w.target, finalized := w.source))
  {
    var v, w := Between(l, 0, 2), Between(l, 2, 3);
    SupportersAppend([], v, l.history[2]);
    SupportersAppend([], v, l.history[3]);
    LoneVote(l.(log := [v], justified := v.target), w);
    assert [v] + [w] == [v, w];
  }

  /** With one validator, votes 0 to 2 and 2 to 3 justify slot 3 and finalize slot 2. */
  lemma TwoVotesFinalize(asserts: bool, l: Ledger)
    requires FreshChain(l)
    ensures var v, w := Between(l, 0, 2), Between(l, 2, 3);
            CastAll(asserts, 1, l, [v, w]) == Accepted(l.(log := [v, w], justified := w.target, finalized := w.source))
  {
    var v, w := Between(l, 0, 2), Between(l, 2, 3);
    FirstVote(asserts, l);
    SecondVote(asserts, l);
    assert [v, w][..1] == [v] && CastAll(asserts, 1, l, [v]) == CastVote(asserts, 1, l, v);
  }

  /** With one validator and blocks at slots 0 and 1, a vote 0 to 1 justifies slot 1. */
  lemma FirstIsJustified(asserts: bool, l: Ledger)
    requires |l.history| == 2 && NoRepeats(l.history) && l.log == [] && l.finalized == Checkpoint(l.history[0], 0)
    requires l.history[0] != ZERO_ROOT && l.history[1] != ZERO_ROOT
    ensures var v := Between(l, 0, 1); CastAll(asserts, 1, l, [v]) == Accepted(l.(log := [v], justified := v.target))
  {
    var v := Between(l, 0, 1);
    LoneVote(l, v);
    assert CastAll(asserts, 1, l, [v]) == CastVote(asserts, 1, l, v);
  }

  /**
   * With one validator, votes 0 to 2 and 2 to 3 finalize slot 2; a vote 0 to 4 is then countable and its
   * scan starts at slot 1.
   */
  lemma VotesThatScanBelow(l: Ledger)
    requires FreshChain(l)
    ensures SomeAsserts(1, l, [Between(l, 0, 2), Between(l, 2, 3), Between(l, 0, 4)])
  {
    var v, w, x := Between(l, 0, 2), Between(l, 2, 3), Between(l, 0, 4);
    FirstVote(true, l);
    SecondVote(true, l);
    SupportersAppend([], v, l.history[4]);
    SupportersAppend([v], w, l.history[4]);
    LoneVote(l.(log := [v, w], justified := w.target, finalized := w.source), x);
    assert [v, w, x][..2] == [v, w] && [v, w][..1] == [v] && [v] + [w] == [v, w];
    assert CastAll(true, 1, l, [v]) == CastVote(true, 1, l, v);
    assert AssertsAt(1, l, [v, w, x], 2);
  }

  // ----- the justified slot is not monotone

  /** The k-th vote is reached, is countable, and completes two thirds for its target. */
  ghost predicate CompletesAt(asserts: bool, n: nat, l: Ledger, votes: seq<Vote>, k: nat)
    requires k < |votes|
  {
    var c := CastAll(asserts, n, l, votes[..k]);
    && c.Accepted? && Countable(n, c.ledger, votes[k])
    && Quorum(n, c.ledger.log + [votes[k]], votes[k].target.root)
  }

  /** The k-th vote is the last one that does. */
  ghost predicate LastCompletes(asserts: bool, n: nat, l: Ledger, votes: seq<Vote>, k: nat) {
    && k < |votes| && CompletesAt(asserts, n, l, votes, k)
    && forall j | k < j < |votes| :: !CompletesAt(asserts, n, l, votes, j)
  }

  /** The last number below `m` with a property. */
  ghost function LastTrue(p: nat -> bool, m: nat): Option<nat> {
    if m == 0 then None else if p(m - 1) then Some(m - 1) else LastTrue(p, m - 1)
  }

  lemma {:induction false} LastTrueMeaning(p: nat -> bool, m: nat, j: nat)
    ensures LastTrue(p, m).Some? ==> LastTrue(p, m).value < m && p(LastTrue(p, m).value)
    ensures j < m && p(j) ==> LastTrue(p, m).Some? && j <= LastTrue(p, m).value
  {
    if m > 0 {
      LastTrueMeaning(p, m - 1, j);
    }
  }

  lemma LastTrueExactly(p: nat -> bool, m: nat, k: nat)
    ensures LastTrue(p, m) == Some(k) <==> k < m && p(k) && forall j: nat | k < j < m :: !p(j)
  {
    LastTrueMeaning(p, m, k);
    if LastTrue(p, m) == Some(k) {
      forall j: nat | k < j < m ensures !p(j) { LastTrueMeaning(p, m, j); }
    }
  }

  ghost function Completes(asserts: bool, n: nat, l: Ledger, votes: seq<Vote>): nat -> bool {
    (k: nat) => k < |votes| && CompletesAt(asserts, n, l, votes, k)
  }

  /** The last of the first `m` votes that does. */
  ghost function LastIndex(asserts: bool, n: nat, l: Ledger, votes: seq<Vote>, m: nat): Option<nat> {
    LastTrue(Completes(asserts, n, l, votes), m)
  }

  lemma LastIsIndex(asserts: bool, n: nat, l: Ledger, votes: seq<Vote>, k: nat)
    ensures LastCompletes(asserts, n, l, votes, k) <==> LastIndex(asserts, n, l, votes, |votes|) == Some(k)
  {
    var p := Completes(asserts, n, l, votes);
    LastTrueExactly(p, |votes|, k);
    forall j: nat | j < |votes| ensures p(j) <==> CompletesAt(asserts, n, l, votes, j) { }
  }

  lemma OneDecides(asserts: bool, n: nat, l: Ledger, v: Vote)
    requires CastVote(asserts, n, l, v).Accepted?
    ensures CastVote(asserts, n, l, v).ledger.justified
         == if Countable(n, l, v) && Quorum(n, l.log + [v], v.target.root) then v.target else l.justified
  {
  }

  /** One vote more. */
  lemma NextDecides(asserts: bool, n: nat, l: Ledger, votes: seq<Vote>, m: nat)
    requires 0 < m <= |votes| && CastAll(asserts, n, l, votes[..m]).Accepted?
    ensures CastAll(asserts, n, l, votes[..m - 1]).Accepted?
    ensures CastAll(asserts, n, l, votes[..m]).ledger.justified
         == if Completes(asserts, n, l, votes)(m - 1) then votes[m - 1].target
            else CastAll(asserts, n, l, votes[..m - 1]).ledger.justified
  {
    assert votes[..m][..m - 1] == votes[..m - 1];
    OneDecides(asserts, n, CastAll(asserts, n, l, votes[..m - 1]).ledger, votes[m - 1]);
  }

  /** That vote decides which checkpoint is justified; without one it stays. */
  lemma {:induction false} LastDecides(asserts: bool, n: nat, l: Ledger, votes: seq<Vote>, m: nat)
    requires m <= |votes| && CastAll(asserts, n, l, votes[..m]).Accepted?
    ensures LastIndex(asserts, n, l, votes, m).Some? ==> LastIndex(asserts, n, l, votes, m).value < m
    ensures CastAll(asserts, n, l, votes[..m]).ledger.justified
         == match LastIndex(asserts, n, l, votes, m) case Some(k) => votes[k].target case None => l.justified
  {
    if m > 0 {
      NextDecides(asserts, n, l, votes, m);
      LastDecides(asserts, n, l, votes, m - 1);
    }
  }

  /** The accepted votes of a block move the justified slot back exactly when the last to complete two thirds does. */
  lemma JustifiedGoesBackExactly(asserts: bool, n: nat, l: Ledger, votes: seq<Vote>)
    requires CastAll(asserts, n, l, votes).Accepted?
    ensures CastAll(asserts, n, l, votes).ledger.justified.slot < l.justified.slot
       <==> exists k: nat :: LastCompletes(asserts, n, l, votes, k) && votes[k].target.slot < l.justified.slot
  {
    var last := LastIndex(asserts, n, l, votes, |votes|);
    assert votes[..|votes|] == votes;
    LastDecides(asserts, n, l, votes, |votes|);
    forall k: nat ensures LastCompletes(asserts, n, l, votes, k) <==> last == Some(k) {
      LastIsIndex(asserts, n, l, votes, k);
    }
    if last.Some? { assert LastCompletes(asserts, n, l, votes, last.value); }
  }

  /** With one validator, a vote 0 to 3 justifies slot 3. */
  lemma ThirdIsJustified(asserts: bool, l: Ledger)
    requires FreshChain(l)
    ensures var v := Between(l, 0, 3); CastAll(asserts, 1, l, [v]) == Accepted(l.(log := [v], justified := v.target))
  {
    var v := Between(l, 0, 3);
    LoneVote(l, v);
    assert JustifiableAfter(0, 1);
    assert CastAll(asserts, 1, l, [v]) == CastVote(asserts, 1, l, v);
  }

  /** A vote 0 to 2 in the next block then makes slot 2 the justified one. */
  lemma ThenSecond(asserts: bool, l: Ledger, root: Root)
    requires FreshChain(l)
    ensures var v, w := Between(l, 0, 3), Between(l, 0, 2);
            var l' := Extend(l.(log := [v], justified := v.target), root, 6);
            CastAll(asserts, 1, l', [w]) == Accepted(l'.(log := [v, w], justified := w.target))
  {
    var v, w := Between(l, 0, 3), Between(l, 0, 2);
    var l1 := l.(log := [v], justified := v.target);
    var l2 := Extend(l1, root, 6);
    ExtendHistory(l1, root, 6);
    SupportersAppend([], v, l.history[2]);
    LoneVote(l2, w);
    assert JustifiableAfter(0, 1);
    assert CastAll(asserts, 1, l2, [w]) == CastVote(asserts, 1, l2, w);
    assert [v] + [w] == [v, w];
  }
}
