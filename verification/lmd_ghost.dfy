/**
 * LMD-GHOST: a weight table built by climbing from every vote, then a walk that always takes the
 * heaviest child. Weights and walk are specified on sets of voters and sets of children, so the
 * results cannot depend on the iteration order of the source.
 */
module LmdGhost {
  import opened Types
  import opened Forests
  import opened CachedTrees
  import opened TreeViews

  /** The head that each validator voted for. */
  type Votes = map<nat, Root>

  /** The validators whose vote is for `b` or a descendant of `b`. */
  ghost function Supporters(f: Forest, votes: Votes, b: Root): set<nat>
    requires WellFormed(f)
  {
    set v | v in votes && IsAncestor(f, b, votes[v])
  }

  ghost function Weight(f: Forest, votes: Votes, start: nat, b: Root): nat
    requires WellFormed(f)
  {
    if b in f && f[b].slot > start then |Supporters(f, votes, b)| else 0
  }

  // ----- the weight table

  function GetWeight(weights: map<Root, nat>, b: Root): nat {
    if b in weights then weights[b] else 0
  }

  /** A vote for `head` adds to the weight of `b`. */
  ghost predicate Counts(f: Forest, start: nat, b: Root, head: Option<Root>)
    requires WellFormed(f)
  {
    head.Some? && b in f && f[b].slot > start && IsAncestor(f, b, head.value)
  }

  /** One unit for every ancestor-or-self of `head` above the start slot. */
  method Climb(f: Forest, start: nat, head: Root, table: map<Root, nat>) returns (weights: map<Root, nat>)
    requires WellFormed(f)
    ensures forall b :: GetWeight(weights, b)
                     == GetWeight(table, b) + if Counts(f, start, b, Some(head)) then 1 else 0
  {
    weights := table;
    var current := Some(head);
    while current.Some? && current.value in f && f[current.value].slot > start
      invariant forall b :: Counts(f, start, b, current) ==> Counts(f, start, b, Some(head))
      invariant forall b :: GetWeight(weights, b) == GetWeight(table, b)
                  + if Counts(f, start, b, Some(head)) && !Counts(f, start, b, current) then 1 else 0
      decreases if current.Some? && current.value in f then f[current.value].slot + 1 else 0
    {
      var b := current.value;
      ClimbStep(f, start, b);
      assert f[b].parent.Some? && f[b].parent.value in f ==> HasParent(f, b);
      weights := weights[b := GetWeight(weights, b) + 1];
      current := f[b].parent;
    }
    assert forall b :: !Counts(f, start, b, current) by {
      forall b ensures !Counts(f, start, b, current) {
        if Counts(f, start, b, current) { AncestorSlot(f, b, current.value); }
      }
    }
  }

  /** Moving to the parent drops exactly the block itself. */
  lemma ClimbStep(f: Forest, start: nat, c: Root)
    requires WellFormed(f) && c in f && f[c].slot > start
    ensures forall b :: Counts(f, start, b, f[c].parent) <==> Counts(f, start, b, Some(c)) && b != c
  {
    if HasParent(f, c) && IsAncestor(f, c, Parent(f, c)) {
      AncestorSlot(f, c, Parent(f, c));
    }
  }

  /** The table holds the weight of every block. */
  method CollectWeights(f: Forest, votes: Votes, start: nat) returns (weights: map<Root, nat>)
    requires WellFormed(f)
    ensures forall b :: GetWeight(weights, b) == Weight(f, votes, start, b)
  {
    weights := map[];
    var rest := votes.Keys;
    ghost var done: Votes := map[];
    while rest != {}
      invariant rest <= votes.Keys && done == votes - rest
      invariant forall b :: GetWeight(weights, b) == Weight(f, done, start, b)
      decreases rest
    {
      var v :| v in rest;
      weights := Climb(f, start, votes[v], weights);
      forall b ensures Weight(f, done[v := votes[v]], start, b)
                    == Weight(f, done, start, b) + if Counts(f, start, b, Some(votes[v])) then 1 else 0
      {
        OneMoreVote(f, done, v, votes[v], b);
      }
      done := done[v := votes[v]];
      rest := rest - {v};
    }
    assert done == votes;
  }

  lemma OneMoreVote(f: Forest, votes: Votes, v: nat, head: Root, b: Root)
    requires WellFormed(f) && v !in votes
    ensures |Supporters(f, votes[v := head], b)|
         == |Supporters(f, votes, b)| + if IsAncestor(f, b, head) then 1 else 0
  {
    var more := Supporters(f, votes[v := head], b);
    assert more == Supporters(f, votes, b) + if IsAncestor(f, b, head) then {v} else {};
  }

  // ----- weights add up over children

  ghost function DirectVotes(votes: Votes, b: Root): set<nat> {
    set v | v in votes && votes[v] == b
  }

  ghost function SumWeights(f: Forest, votes: Votes, blocks: seq<Root>): nat
    requires WellFormed(f)
  {
    if blocks == [] then 0
    else SumWeights(f, votes, blocks[..|blocks| - 1]) + |Supporters(f, votes, blocks[|blocks| - 1])|
  }

  /** A voter supports at most one of two siblings. */
  lemma SiblingsShareNoVoter(f: Forest, votes: Votes, p: Root, c: Root, d: Root)
    requires WellFormed(f) && IsChild(f, p, c) && IsChild(f, p, d) && c != d
    ensures Supporters(f, votes, c) !! Supporters(f, votes, d)
  {
    forall v | v in Supporters(f, votes, c) ensures v !in Supporters(f, votes, d) {
      SiblingOffPath(f, votes[v], p, c, d);
    }
  }

  ghost function SupportersOfAny(f: Forest, votes: Votes, blocks: seq<Root>): set<nat>
    requires WellFormed(f)
  {
    if blocks == [] then {}
    else SupportersOfAny(f, votes, blocks[..|blocks| - 1]) + Supporters(f, votes, blocks[|blocks| - 1])
  }

  lemma {:induction false} SupportsSome(f: Forest, votes: Votes, blocks: seq<Root>, v: nat)
    requires WellFormed(f)
    ensures v in SupportersOfAny(f, votes, blocks) <==> exists b :: b in blocks && v in Supporters(f, votes, b)
  {
    if blocks != [] {
      var k := |blocks| - 1;
      SupportsSome(f, votes, blocks[..k], v);
      assert blocks == blocks[..k] + [blocks[k]];
      assert forall b :: b in blocks <==> b in blocks[..k] || b == blocks[k];
    }
  }

  lemma {:induction false} ChildrenAddUp(f: Forest, votes: Votes, p: Root, kids: seq<Root>)
    requires WellFormed(f) && Distinct(kids) && forall c | c in kids :: IsChild(f, p, c)
    ensures |SupportersOfAny(f, votes, kids)| == SumWeights(f, votes, kids)
  {
    if kids != [] {
      var k := |kids| - 1;
      ChildrenAddUp(f, votes, p, kids[..k]);
      forall v | v in SupportersOfAny(f, votes, kids[..k]) ensures v !in Supporters(f, votes, kids[k]) {
        SupportsSome(f, votes, kids[..k], v);
        var b :| b in kids[..k] && v in Supporters(f, votes, b);
        SiblingsShareNoVoter(f, votes, p, b, kids[k]);
      }
    }
  }

  /** The weight of any stored block is its direct votes plus the weights of its children, listed in any order. */
  lemma WeightIsDirectPlusChildren(f: Forest, votes: Votes, b: Root, kids: seq<Root>)
    requires WellFormed(f) && b in f && Distinct(kids) && forall c :: c in kids <==> IsChild(f, b, c)
    ensures |Supporters(f, votes, b)| == |DirectVotes(votes, b)| + SumWeights(f, votes, kids)
  {
    ChildrenAddUp(f, votes, b, kids);
    var direct, below := DirectVotes(votes, b), SupportersOfAny(f, votes, kids);
    forall x ensures x in Supporters(f, votes, b) <==> x in direct + below {
      SupportsSome(f, votes, kids, x);
      if x in Supporters(f, votes, b) && votes[x] != b {
        var c := ChildOnPath(f, b, votes[x]);
        assert c in kids;
      }
      if x in below {
        var c :| c in kids && x in Supporters(f, votes, c);
        assert IsAncestor(f, b, c) by { assert IsAncestor(f, b, b); }
        AncestorTrans(f, b, c, votes[x]);
      }
    }
    forall x | x in below ensures x !in direct {
      SupportsSome(f, votes, kids, x);
      var c :| c in kids && x in Supporters(f, votes, c);
      AncestorSlot(f, c, votes[x]);
    }
    assert Supporters(f, votes, b) == direct + below;
  }

  // ----- the walk

  /** Heavier, or as heavy with a greater hash. */
  predicate AtMost(wa: nat, a: Root, wb: nat, b: Root) {
    wa < wb || (wa == wb && a <= b)
  }

  /** The children that pass the weight filter. */
  ghost function Eligible(v: View, votes: Votes, start: nat, minScore: nat, b: Root): set<Root>
    requires ViewOk(v)
  {
    set c | c in Kids(v, b) && (minScore == 0 || Weight(v.headers, votes, start, c) >= minScore)
  }

  ghost predicate IsHeaviest(f: Forest, votes: Votes, start: nat, blocks: set<Root>, b: Root)
    requires WellFormed(f)
  {
    b in blocks
    && forall c | c in blocks :: AtMost(Weight(f, votes, start, c), c, Weight(f, votes, start, b), b)
  }

  lemma HeaviestUnique(f: Forest, votes: Votes, start: nat, blocks: set<Root>, a: Root, b: Root)
    requires WellFormed(f) && IsHeaviest(f, votes, start, blocks, a) && IsHeaviest(f, votes, start, blocks, b)
    ensures a == b
  {
  }

  lemma HeaviestExists(f: Forest, votes: Votes, start: nat, blocks: set<Root>)
    requires WellFormed(f) && blocks != {}
    ensures exists b :: IsHeaviest(f, votes, start, blocks, b)
  {
    var b :| b in blocks;
    if blocks == {b} {
      assert IsHeaviest(f, votes, start, blocks, b);
    } else {
      assert blocks == {b} + (blocks - {b});
      HeaviestExists(f, votes, start, blocks - {b});
      var c :| IsHeaviest(f, votes, start, blocks - {b}, c);
      var wb, wc := Weight(f, votes, start, b), Weight(f, votes, start, c);
      assert IsHeaviest(f, votes, start, blocks, if AtMost(wb, b, wc, c) then c else b);
    }
  }

  ghost function Heaviest(f: Forest, votes: Votes, start: nat, blocks: set<Root>): (b: Root)
    requires WellFormed(f) && blocks != {}
    ensures IsHeaviest(f, votes, start, blocks, b)
  {
    HeaviestExists(f, votes, start, blocks);
    var b :| IsHeaviest(f, votes, start, blocks, b);
    b
  }

  ghost function Later(f: Forest, b: Root): set<Root>
    requires b in f
  {
    set c | c in f && f[c].slot > f[b].slot
  }

  lemma LaterShrinks(v: View, b: Root, c: Root)
    requires ViewOk(v) && b in v.headers && c in Kids(v, b)
    ensures c in v.headers && Later(v.headers, c) < Later(v.headers, b)
  {
    KidsAreLater(v, b, c);
    assert c in Later(v.headers, b) && c !in Later(v.headers, c);
  }

  /** From `b`, always to the heaviest eligible child, until there is none. */
  ghost function Walk(v: View, votes: Votes, start: nat, minScore: nat, b: Root): (head: Root)
    requires ViewOk(v) && b in v.headers
    ensures head in v.headers
    decreases Later(v.headers, b)
  {
    var blocks := Eligible(v, votes, start, minScore, b);
    if blocks == {} then b
    else
      var c := Heaviest(v.headers, votes, start, blocks);
      LaterShrinks(v, b, c);
      Walk(v, votes, start, minScore, c)
  }

  /** `max_element` by weight, then hash. */
  method PickHeaviest(kids: seq<Root>, weights: map<Root, nat>) returns (best: Root)
    requires kids != []
    ensures best in kids
    ensures forall c | c in kids :: AtMost(GetWeight(weights, c), c, GetWeight(weights, best), best)
  {
    best := kids[0];
    for i := 1 to |kids|
      invariant best in kids
      invariant forall c | c in kids[..i] :: AtMost(GetWeight(weights, c), c, GetWeight(weights, best), best)
    {
      var c := kids[i];
      var wb, wc := GetWeight(weights, best), GetWeight(weights, c);
      if (if wb == wc then best < c else wb < wc) {
        best := c;
      }
      assert kids[..i + 1] == kids[..i] + [kids[i]];
    }
    assert kids[..|kids|] == kids;
  }

  /** Drops the children below the minimum weight. */
  method FilterKids(kids: seq<Root>, weights: map<Root, nat>, minScore: nat) returns (r: seq<Root>)
    ensures forall c :: c in r <==> c in kids && GetWeight(weights, c) >= minScore
  {
    r := [];
    for i := 0 to |kids|
      invariant forall c :: c in r <==> c in kids[..i] && GetWeight(weights, c) >= minScore
    {
      assert kids[..i + 1] == kids[..i] + [kids[i]];
      if GetWeight(weights, kids[i]) >= minScore {
        r := r + [kids[i]];
      }
    }
    assert kids[..|kids|] == kids;
  }

  /** Where the walk starts: the given block, or the finalized one when that is unknown. */
  function Anchor(v: View, startRoot: Root): Root {
    if startRoot == ZERO_ROOT || startRoot !in v.headers then v.finalized else startRoot
  }

  /** The head chosen from a starting root: the walk from its anchor above the slot of the anchor. */
  ghost function GhostHead(v: View, startRoot: Root, votes: Votes, minScore: nat): Root
    requires ViewOk(v)
  {
    var anchor := Anchor(v, startRoot);
    Walk(v, votes, v.headers[anchor].slot, minScore, anchor)
  }

  /** `computeLmdGhostHead`. */
  method ComputeHead(v: View, startRoot: Root, votes: Votes, minScore: nat) returns (head: Root)
    requires ViewOk(v)
    ensures head == GhostHead(v, startRoot, votes, minScore)
  {
    var anchor := Anchor(v, startRoot);
    var start := v.headers[anchor].slot;
    var weights := CollectWeights(v.headers, votes, start);
    head := anchor;
    while true
      invariant head in v.headers
      invariant Walk(v, votes, start, minScore, head) == Walk(v, votes, start, minScore, anchor)
      decreases Later(v.headers, head)
    {
      var kids := Kids(v, head);
      if minScore > 0 {
        kids := FilterKids(kids, weights, minScore);
      }
      assert forall c :: c in kids <==> c in Eligible(v, votes, start, minScore, head);
      if kids == [] {
        assert Eligible(v, votes, start, minScore, head) == {};
        return;
      }
      assert kids[0] in Eligible(v, votes, start, minScore, head);
      var next := PickHeaviest(kids, weights);
      ghost var blocks := Eligible(v, votes, start, minScore, head);
      assert IsHeaviest(v.headers, votes, start, blocks, next);
      HeaviestUnique(v.headers, votes, start, blocks, next, Heaviest(v.headers, votes, start, blocks));
      LaterShrinks(v, head, next);
      head := next;
    }
  }

  // ----- what the walk returns

  /** The walk ends at a descendant without eligible children. */
  lemma {:induction false} WalkDescends(v: View, votes: Votes, start: nat, minScore: nat, b: Root)
    requires ViewOk(v) && b in v.headers
    ensures var head := Walk(v, votes, start, minScore, b);
            && IsAncestor(v.headers, b, head) && Eligible(v, votes, start, minScore, head) == {}
            && (b in v.children ==> head in v.children)
    decreases Later(v.headers, b)
  {
    var blocks := Eligible(v, votes, start, minScore, b);
    if blocks != {} {
      var c := Heaviest(v.headers, votes, start, blocks);
      LaterShrinks(v, b, c);
      KidsAreLater(v, b, c);
      WalkDescends(v, votes, start, minScore, c);
      assert IsAncestor(v.headers, b, c) by { assert IsAncestor(v.headers, b, b); }
      AncestorTrans(v.headers, b, c, Walk(v, votes, start, minScore, c));
    }
  }

  /** A cached block without children. */
  ghost predicate IsLeaf(v: View, b: Root) {
    b in v.children && v.children[b] == []
  }

  lemma NoEligibleNoKids(v: View, votes: Votes, start: nat, b: Root)
    requires ViewOk(v)
    ensures Eligible(v, votes, start, 0, b) == {} <==> Kids(v, b) == []
  {
    var kids := Kids(v, b);
    if kids != [] {
      assert kids[0] in Eligible(v, votes, start, 0, b);
    }
  }

  lemma CachedWalkEndsAtLeaf(v: View, votes: Votes, start: nat, b: Root)
    requires ViewOk(v) && b in v.children
    ensures IsLeaf(v, Walk(v, votes, start, 0, b))
  {
    var head := Walk(v, votes, start, 0, b);
    NoEligibleNoKids(v, votes, start, head);
    WalkDescends(v, votes, start, 0, b);
  }

  /** From a block that is only stored the walk can go to one child alone, and only in the next slot. */
  lemma StoredEligible(v: View, votes: Votes, start: nat, minScore: nat, b: Root, k: Root)
    requires ViewOk(v) && b in v.headers && b !in v.children && IsChild(v.headers, b, k)
    ensures Eligible(v, votes, start, minScore, b)
         == if v.headers[k].slot == v.headers[b].slot + 1
               && (minScore == 0 || Weight(v.headers, votes, start, k) >= minScore)
            then {k} else {}
  {
    var only := StoredChild(v, b);
    forall c ensures c in Kids(v, b) <==> c == k && v.headers[k].slot == v.headers[b].slot + 1 {
      assert c in Kids(v, b) <==> Linked(v, b, c);
    }
  }

  /**
   * Where the walk without a filter ends: at a leaf of the tree exactly when every slot between its start
   * and the finalized block holds a block. From a cached start there is no such slot.
   */
  lemma {:induction false} WalkEndsAtLeaf(v: View, votes: Votes, start: nat, b: Root)
    requires ViewOk(v) && b in v.headers
    ensures IsLeaf(v, Walk(v, votes, start, 0, b)) <==> Gapless(v.headers, b, v.finalized)
    ensures b in v.children ==> Gapless(v.headers, b, v.finalized)
    decreases Later(v.headers, b)
  {
    var f := v.headers;
    if b in v.children {
      CachedWalkEndsAtLeaf(v, votes, start, b);
      forall y | IsAncestor(f, b, y) && IsAncestor(f, y, v.finalized) ensures y == b {
        CachedHasNoGap(v, b, y);
      }
    } else {
      var k := StoredChild(v, b);
      StoredEligible(v, votes, start, 0, b, k);
      GaplessStep(v, b, k);
      if f[k].slot == f[b].slot + 1 {
        assert k in Eligible(v, votes, start, 0, b);
        assert Heaviest(f, votes, start, {k}) == k;
        LaterShrinks(v, b, k);
        WalkEndsAtLeaf(v, votes, start, k);
      }
    }
  }

  /** A start that is cached or unknown makes the head a leaf below a cached anchor. */
  lemma HeadIsLeaf(v: View, startRoot: Root, votes: Votes)
    requires ViewOk(v) && (startRoot in v.children || startRoot !in v.headers)
    ensures Anchor(v, startRoot) in v.children && IsLeaf(v, GhostHead(v, startRoot, votes, 0))
    ensures IsAncestor(v.headers, Anchor(v, startRoot), GhostHead(v, startRoot, votes, 0))
  {
    var anchor := Anchor(v, startRoot);
    CachedWalkEndsAtLeaf(v, votes, v.headers[anchor].slot, anchor);
    WalkDescends(v, votes, v.headers[anchor].slot, 0, anchor);
  }

  /**
   * A stored block 1 at slot 0 whose child 2, at slot 2, is the finalized block: the walk from 1 stays
   * there, although 2 is a leaf below it.
   */
  lemma WalkStopsAtAGap()
    ensures var v := View(map[1 := Node(0, None), 2 := Node(2, Some(1))], map[2 := []], map[0 := [1], 2 := [2]], 2);
            ViewOk(v) && IsChild(v.headers, 1, 2) && IsLeaf(v, 2) && GhostHead(v, 1, map[], 0) == 1
  {
    var f: Forest := map[1 := Node(0, None), 2 := Node(2, Some(1))];
    var v := View(f, map[2 := []], map[0 := [1], 2 := [2]], 2);
    assert HasParent(f, 2) && Parent(f, 2) == 1;
    assert IsAncestor(f, 2, 2) && IsAncestor(f, 1, 1) && IsAncestor(f, 1, 2);
    assert Kids(v, 1) == [] && Kids(v, 2) == [];
    assert Eligible(v, map[], 0, 0, 1) == {};
  }

  /** Every block on the way to the head is the heaviest eligible child of its parent. */
  lemma {:induction false} WalkIsGreedy(v: View, votes: Votes, start: nat, minScore: nat, b: Root, c: Root)
    requires ViewOk(v) && b in v.headers && c != b && IsAncestor(v.headers, b, c)
    requires IsAncestor(v.headers, c, Walk(v, votes, start, minScore, b))
    ensures HasParent(v.headers, c)
    ensures IsHeaviest(v.headers, votes, start, Eligible(v, votes, start, minScore, Parent(v.headers, c)), c)
    decreases Later(v.headers, b)
  {
    var f := v.headers;
    var blocks := Eligible(v, votes, start, minScore, b);
    if blocks == {} {
      AncestorSlot(f, b, c);
      AncestorSlot(f, c, b);
    } else {
      var d := Heaviest(f, votes, start, blocks);
      LaterShrinks(v, b, d);
      KidsAreLater(v, b, d);
      WalkDescends(v, votes, start, minScore, d);
      var head := Walk(v, votes, start, minScore, d);
      AncestorsComparable(f, c, d, head);
      if c != d {
        if IsAncestor(f, c, d) {
          AncestorSlot(f, c, b);
          AncestorSlot(f, b, c);
        }
        WalkIsGreedy(v, votes, start, minScore, d, c);
      }
    }
  }

  /** The head is determined by that description: a descendant reached greedily that cannot be extended. */
  lemma {:induction false} GreedyHeadIsUnique(v: View, votes: Votes, start: nat, minScore: nat, b: Root, head: Root)
    requires ViewOk(v) && b in v.headers && IsAncestor(v.headers, b, head)
    requires Eligible(v, votes, start, minScore, head) == {}
    requires forall c | c != b && IsAncestor(v.headers, b, c) && IsAncestor(v.headers, c, head) ::
               && HasParent(v.headers, c)
               && IsHeaviest(v.headers, votes, start, Eligible(v, votes, start, minScore, Parent(v.headers, c)), c)
    ensures head == Walk(v, votes, start, minScore, b)
    decreases Later(v.headers, b)
  {
    var f := v.headers;
    if head != b {
      var c := ChildOnPath(f, b, head);
      assert IsAncestor(f, b, c) by { assert IsAncestor(f, b, b); }
      AncestorSlot(f, c, head);
      var blocks := Eligible(v, votes, start, minScore, b);
      assert IsHeaviest(f, votes, start, blocks, c);
      HeaviestUnique(f, votes, start, blocks, c, Heaviest(f, votes, start, blocks));
      LaterShrinks(v, b, c);
      KidsAreLater(v, b, c);
      forall d | d != c && IsAncestor(f, c, d) && IsAncestor(f, d, head)
        ensures HasParent(f, d)
        ensures IsHeaviest(f, votes, start, Eligible(v, votes, start, minScore, Parent(f, d)), d)
      {
        AncestorTrans(f, b, c, d);
        AncestorSlot(f, c, d);
      }
      GreedyHeadIsUnique(v, votes, start, minScore, c, head);
    }
  }

  /** Two views of one tree with the same cached blocks give the same head, in whatever order they list children. */
  lemma {:induction false} ChildOrderDoesNotMatter(v: View, u: View, votes: Votes, start: nat, minScore: nat, b: Root)
    requires ViewOk(v) && ViewOk(u) && v.headers == u.headers && b in v.headers
    requires v.children.Keys == u.children.Keys
    ensures Walk(v, votes, start, minScore, b) == Walk(u, votes, start, minScore, b)
    decreases Later(v.headers, b)
  {
    forall c ensures c in Kids(v, b) <==> c in Kids(u, b) {
      assert Linked(v, b, c) <==> Linked(u, b, c);
    }
    var blocks := Eligible(v, votes, start, minScore, b);
    assert blocks == Eligible(u, votes, start, minScore, b);
    if blocks != {} {
      var c := Heaviest(v.headers, votes, start, blocks);
      LaterShrinks(v, b, c);
      ChildOrderDoesNotMatter(v, u, votes, start, minScore, c);
    }
  }
}
