/**
 * The attestation target: at most three parents back from the head while it is later than the safe
 * target and the justified block, then back to the nearest slot that may be justified.
 */
module AttestationTargets {
  import opened Types
  import opened Forests
  import opened Justifiable
  import opened TreeViews

  const LOOKBACK_SLOTS := 3

  /** Headers as the walk reads them: the head may be given with its parent before it is stored. */
  function Seen(headers: Forest, head: Checkpoint, headParent: Option<Root>): Forest {
    if headParent.Some? then headers[head.root := Node(head.slot, headParent)] else headers
  }

  /** Up to `k` parents back while the slot is above `limit`; None when a header is missing. */
  ghost function LookBack(f: Forest, limit: nat, b: Option<Root>, k: nat): Option<Root>
    decreases k
  {
    if b.None? || b.value !in f then None
    else if k == 0 || f[b.value].slot <= limit then b
    else LookBack(f, limit, f[b.value].parent, k - 1)
  }

  /** How a walk ends: the fatal error of a missing header and the failed assertion end the process. */
  datatype Walked<+T> = Found(value: T) | MissingHeader | AssertionFailed

  /** The nearest ancestor-or-self at a justifiable slot. */
  ghost function NearestJustifiable(f: Forest, build: Build, finalizedSlot: nat, b: Option<Root>): Walked<Root>
    requires WellFormed(f)
    decreases if b.Some? && b.value in f then f[b.value].slot + 1 else 0
  {
    if b.None? || b.value !in f then MissingHeader
    else
      var justifiable := IsJustifiableSlot(build, finalizedSlot, f[b.value].slot);
      if justifiable.None? then AssertionFailed
      else if justifiable.value then Found(b.value)
      else if HasParent(f, b.value) then NearestJustifiable(f, build, finalizedSlot, f[b.value].parent)
      else MissingHeader
  }

  ghost function Target(f: Forest, build: Build, finalizedSlot: nat, limit: nat, head: Root): Walked<Root>
    requires WellFormed(f)
  {
    NearestJustifiable(f, build, finalizedSlot, LookBack(f, limit, Some(head), LOOKBACK_SLOTS))
  }

  function Max(a: nat, b: nat): nat {
    if a > b then a else b
  }

  /** `getAttestationTarget`. */
  method GetAttestationTarget(headers: Forest, build: Build, finalizedSlot: nat, safeTarget: Checkpoint,
                              justified: Checkpoint, head: Checkpoint, headParent: Option<Root>)
    returns (r: Walked<Checkpoint>)
    requires WellFormed(Seen(headers, head, headParent))
    ensures var f := Seen(headers, head, headParent);
            match Target(f, build, finalizedSlot, Max(safeTarget.slot, justified.slot), head.root)
            case Found(t) => t in f && r == Found(Checkpoint(t, f[t].slot))
            case MissingHeader => r == MissingHeader
            case AssertionFailed => r == AssertionFailed
  {
    var f := Seen(headers, head, headParent);
    var limit := Max(safeTarget.slot, justified.slot);
    var target := Some(head.root);
    var i := 0;
    while i < LOOKBACK_SLOTS
      invariant 0 <= i <= LOOKBACK_SLOTS
      invariant LookBack(f, limit, target, LOOKBACK_SLOTS - i) == LookBack(f, limit, Some(head.root), LOOKBACK_SLOTS)
    {
      if target.None? || target.value !in f {
        return MissingHeader;
      }
      if f[target.value].slot > limit {
        target := f[target.value].parent;
      } else {
        break;
      }
      i := i + 1;
    }
    while true
      invariant NearestJustifiable(f, build, finalizedSlot, target)
             == Target(f, build, finalizedSlot, limit, head.root)
      decreases if target.Some? && target.value in f then f[target.value].slot + 1 else 0
    {
      if target.None? || target.value !in f {
        return MissingHeader;
      }
      var justifiable := IsJustifiableSlot(build, finalizedSlot, f[target.value].slot);
      if justifiable.None? {
        return AssertionFailed;
      }
      if justifiable.value {
        return Found(Checkpoint(target.value, f[target.value].slot));
      }
      assert f[target.value].parent.Some? && f[target.value].parent.value in f ==> HasParent(f, target.value);
      target := f[target.value].parent;
    }
  }

  // ----- on a head that descends from the finalized block

  /** Where the first walk stops. */
  ghost predicate IsStop(f: Forest, limit: nat, head: Root, stop: Root, k: nat)
    requires WellFormed(f)
  {
    && IsAncestor(f, stop, head)
    && |UpPath(f, stop, head)| <= k
    && (forall x | x in UpPath(f, stop, head) :: f[x].slot > limit)
    && stop in f && (f[stop].slot <= limit || |UpPath(f, stop, head)| == k)
  }

  lemma {:induction false} LookBackStops(f: Forest, limit: nat, finalized: Root, b: Root, k: nat)
    requires WellFormed(f) && IsAncestor(f, finalized, b) && finalized in f && f[finalized].slot <= limit
    ensures var r := LookBack(f, limit, Some(b), k);
            r.Some? && IsStop(f, limit, b, r.value, k) && IsAncestor(f, finalized, r.value)
    decreases k
  {
    assert IsAncestor(f, b, b);
    if k > 0 && f[b].slot > limit {
      assert HasParent(f, b);
      LookBackStops(f, limit, finalized, Parent(f, b), k - 1);
      var stop := LookBack(f, limit, Some(Parent(f, b)), k - 1).value;
      AncestorSlot(f, stop, Parent(f, b));
      assert UpPath(f, stop, b) == [b] + UpPath(f, stop, Parent(f, b));
    }
  }

  /** The nearest ancestor-or-self of `stop` whose distance from finality is justifiable. */
  ghost predicate IsNearest(f: Forest, finalized: Root, stop: Root, t: Root)
    requires WellFormed(f)
  {
    && finalized in f && t in f && IsAncestor(f, t, stop) && IsAncestor(f, finalized, t)
    && f[finalized].slot <= f[t].slot
    && IsJustifiableDistance(f[t].slot - f[finalized].slot)
    && forall x | x in f && x != t && IsAncestor(f, t, x) && IsAncestor(f, x, stop) ::
         f[finalized].slot <= f[x].slot && !IsJustifiableDistance(f[x].slot - f[finalized].slot)
  }

  lemma {:induction false} NearestIsFound(f: Forest, build: Build, finalized: Root, stop: Root)
    requires WellFormed(f) && IsAncestor(f, finalized, stop) && finalized in f
    ensures var t := NearestJustifiable(f, build, f[finalized].slot, Some(stop));
            t.Found? && IsNearest(f, finalized, stop, t.value)
    decreases f[stop].slot
  {
    AncestorSlot(f, finalized, stop);
    assert IsAncestor(f, stop, stop);
    if IsJustifiableDistance(f[stop].slot - f[finalized].slot) {
      forall x | x in f && x != stop && IsAncestor(f, stop, x) ensures !IsAncestor(f, x, stop) {
        AncestorSlot(f, stop, x);
        if IsAncestor(f, x, stop) { AncestorSlot(f, x, stop); }
      }
    } else {
      var p := Parent(f, stop);
      NearestIsFound(f, build, finalized, p);
      var t := NearestJustifiable(f, build, f[finalized].slot, Some(p)).value;
      AncestorSlot(f, t, p);
    }
  }

  /**
   * If the head descends from the finalized block and the justified block is not before it, no header
   * is missing, no assertion fails, at most three parents are skipped, and the target is the nearest justifiable ancestor
   * of that stop, never before the finalized block.
   */
  lemma TargetIsNearestJustifiable(f: Forest, build: Build, finalized: Root, safeSlot: nat,
                                   justifiedSlot: nat, head: Root)
    returns (stop: Root)
    requires WellFormed(f) && IsAncestor(f, finalized, head) && finalized in f && f[finalized].slot <= justifiedSlot
    ensures IsStop(f, Max(safeSlot, justifiedSlot), head, stop, LOOKBACK_SLOTS)
    ensures var t := Target(f, build, f[finalized].slot, Max(safeSlot, justifiedSlot), head);
            t.Found? && IsNearest(f, finalized, stop, t.value)
  {
    var limit := Max(safeSlot, justifiedSlot);
    LookBackStops(f, limit, finalized, head, LOOKBACK_SLOTS);
    stop := LookBack(f, limit, Some(head), LOOKBACK_SLOTS).value;
    NearestIsFound(f, build, finalized, stop);
  }

  // ----- exactly when the walks end well

  /** From deep enough below `finalized`, the first walk does not pass it. */
  lemma {:induction false} LookBackStays(f: Forest, limit: nat, finalized: Root, b: Root, k: nat)
    requires WellFormed(f) && IsAncestor(f, finalized, b) && k <= |UpPath(f, finalized, b)|
    ensures var r := LookBack(f, limit, Some(b), k); r.Some? && IsAncestor(f, finalized, r.value) && r.value in f
    decreases k
  {
    if k > 0 && f[b].slot > limit {
      LookBackStays(f, limit, finalized, Parent(f, b), k - 1);
    }
  }

  /** The first walk only goes to earlier slots. */
  lemma {:induction false} LookBackIsEarlier(f: Forest, limit: nat, b: Option<Root>, k: nat)
    requires WellFormed(f)
    ensures var r := LookBack(f, limit, b, k);
            r.Some? ==> b.Some? && b.value in f && r.value in f && f[r.value].slot <= f[b.value].slot
    decreases k
  {
    if b.Some? && b.value in f && k > 0 && f[b.value].slot > limit {
      LookBackIsEarlier(f, limit, f[b.value].parent, k - 1);
      var p := f[b.value].parent;
      if p.Some? && p.value in f { assert HasParent(f, b.value); }
    }
  }

  /** From too close below `finalized`, with a limit before it, the first walk passes it. */
  lemma {:induction false} LookBackPasses(f: Forest, limit: nat, finalized: Root, b: Root, k: nat)
    requires WellFormed(f) && IsAncestor(f, finalized, b) && finalized in f && limit < f[finalized].slot
    requires |UpPath(f, finalized, b)| < k
    ensures var r := LookBack(f, limit, Some(b), k); r.Some? ==> r.value in f && f[r.value].slot < f[finalized].slot
    decreases k
  {
    AncestorSlot(f, finalized, b);
    if b == finalized {
      var p := f[b].parent;
      LookBackIsEarlier(f, limit, p, k - 1);
      if p.Some? && p.value in f { assert HasParent(f, b); }
    } else {
      LookBackPasses(f, limit, finalized, Parent(f, b), k - 1);
    }
  }

  /** The head is cached, and the limit is not before finality or the head is deep enough below it. */
  ghost predicate CanVote(v: View, limit: nat, head: Root)
    requires ViewOk(v)
  {
    head in v.children
    && (v.headers[v.finalized].slot <= limit || LOOKBACK_SLOTS <= |UpPath(v.headers, v.finalized, head)|)
  }

  lemma StopsAboveFinality(v: View, limit: nat, head: Root)
    requires ViewOk(v)
    ensures var stop := LookBack(v.headers, limit, Some(head), LOOKBACK_SLOTS);
            && (CanVote(v, limit, head) ==> stop.Some? && IsAncestor(v.headers, v.finalized, stop.value))
            && (!CanVote(v, limit, head) && stop.Some? ==>
                  stop.value in v.headers && v.headers[stop.value].slot < v.headers[v.finalized].slot)
  {
    var f, fin := v.headers, v.finalized;
    if head in v.children {
      if f[fin].slot <= limit {
        LookBackStops(f, limit, fin, head, LOOKBACK_SLOTS);
      } else if LOOKBACK_SLOTS <= |UpPath(f, fin, head)| {
        LookBackStays(f, limit, fin, head, LOOKBACK_SLOTS);
      } else {
        LookBackPasses(f, limit, fin, head, LOOKBACK_SLOTS);
      }
    } else {
      LookBackIsEarlier(f, limit, Some(head), LOOKBACK_SLOTS);
      if head in f { AncestorSlot(f, head, fin); }
    }
  }

  /**
   * How `getAttestationTarget` ends on the answers of a block tree: when the client can vote, with the nearest
   * justifiable block above the stop; otherwise with a missing header, or after `isJustifiableSlot` was asked about a
   * stop below finality, which a debug build does not survive.
   */
  ghost predicate TargetChosen(v: View, build: Build, limit: nat, head: Root, t: Walked<Root>)
    requires ViewOk(v)
  {
    var stop := LookBack(v.headers, limit, Some(head), LOOKBACK_SLOTS);
    if CanVote(v, limit, head) then t.Found? && stop.Some? && IsNearest(v.headers, v.finalized, stop.value, t.value)
    else
      || t.MissingHeader?
      || (&& stop.Some? && stop.value in v.headers && v.headers[stop.value].slot < v.headers[v.finalized].slot
          && (build.Debug? ==> t.AssertionFailed?))
  }

  lemma TargetIsFoundExactly(v: View, build: Build, limit: nat, head: Root)
    requires ViewOk(v)
    ensures TargetChosen(v, build, limit, head, Target(v.headers, build, v.headers[v.finalized].slot, limit, head))
  {
    StopsAboveFinality(v, limit, head);
    if CanVote(v, limit, head) {
      NearestIsFound(v.headers, build, v.finalized, LookBack(v.headers, limit, Some(head), LOOKBACK_SLOTS).value);
    }
  }

  /** A client whose head and justified block are cached can vote. */
  lemma CachedCanVote(v: View, justified: BlockIndex, safeSlot: nat, head: Root)
    requires ViewOk(v) && head in v.children && justified.hash in v.children
    requires v.headers[justified.hash].slot == justified.slot
    ensures CanVote(v, Max(safeSlot, justified.slot), head)
  {
    AncestorSlot(v.headers, v.finalized, justified.hash);
  }

  // ----- how far back the target can be

  lemma {:induction false} BlockAtEverySlot(f: Forest, a: Root, b: Root, slot: nat) returns (x: Root)
    requires WellFormed(f) && IsAncestor(f, a, b) && a in f && Gapless(f, a, b) && f[a].slot <= slot <= f[b].slot
    ensures x in f && IsAncestor(f, a, x) && IsAncestor(f, x, b) && f[x].slot == slot
    decreases f[b].slot
  {
    assert IsAncestor(f, b, b);
    if f[b].slot == slot {
      x := b;
    } else {
      AncestorSlot(f, a, b);
      var p := Parent(f, b);
      assert IsAncestor(f, p, p);
      forall y | IsAncestor(f, a, y) && IsAncestor(f, y, p) && y != a && HasParent(f, y)
        ensures f[y].slot == f[Parent(f, y)].slot + 1
      {
        AncestorSlot(f, y, p);
      }
      x := BlockAtEverySlot(f, a, p, slot);
      AncestorSlot(f, x, p);
    }
  }

  /** A justifiable slot with a block between finality and the stop is not skipped. */
  lemma NearestSkipsNothing(f: Forest, finalized: Root, stop: Root, t: Root, x: Root)
    requires WellFormed(f) && IsNearest(f, finalized, stop, t)
    requires x in f && IsAncestor(f, x, stop) && f[finalized].slot <= f[x].slot
    requires IsJustifiableDistance(f[x].slot - f[finalized].slot)
    ensures f[x].slot <= f[t].slot
  {
    AncestorsComparable(f, x, t, stop);
    if IsAncestor(f, x, t) { AncestorSlot(f, x, t); }
  }

  /** Without empty slots the target is at most isqrt(d) slots behind a stop at distance d. */
  lemma TargetIsCloseWithoutGaps(f: Forest, finalized: Root, stop: Root, t: Root, x: nat)
    requires WellFormed(f) && IsNearest(f, finalized, stop, t) && IsAncestor(f, finalized, stop)
    requires Gapless(f, finalized, stop) && f[finalized].slot <= f[stop].slot
    requires IsIsqrt(x, f[stop].slot - f[finalized].slot)
    ensures f[stop].slot - x <= f[t].slot
  {
    var j := JustifiableWithinIsqrt(f[stop].slot - f[finalized].slot, x);
    BlockIsNotSkipped(f, finalized, stop, t, j);
  }

  lemma BlockIsNotSkipped(f: Forest, finalized: Root, stop: Root, t: Root, j: nat)
    requires WellFormed(f) && IsNearest(f, finalized, stop, t) && IsAncestor(f, finalized, stop)
    requires Gapless(f, finalized, stop) && f[finalized].slot + j <= f[stop].slot && IsJustifiableDistance(j)
    ensures f[finalized].slot + j <= f[t].slot
  {
    var x := BlockAtEverySlot(f, finalized, stop, f[finalized].slot + j);
    assert f[x].slot - f[finalized].slot == j;
    NearestSkipsNothing(f, finalized, stop, t, x);
  }
}
