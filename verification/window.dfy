/**
 * The justified-slot bitfield. Bit i stands for slot finalizedSlot + 1 + i; slots at or before the
 * finalized slot have no bit and count as justified. `Justified` is the unbounded set of slots that
 * the bitfield stands for; every operation is stated through it.
 */
module JustifiedWindow {
  import opened Types

  /** The slots that a window represents, over all slot numbers. */
  predicate Justified(bits: seq<bool>, finalizedSlot: nat, slot: nat) {
    slot <= finalizedSlot || (slot - finalizedSlot - 1 < |bits| && bits[slot - finalizedSlot - 1])
  }

  function JustifiedIndexAfter(finalizedSlot: nat, slot: nat): Option<nat> {
    if slot <= finalizedSlot then None else Some(slot - finalizedSlot - 1)
  }

  /** Growing the window changes the status of no slot and makes `targetSlot` addressable. */
  function ExtendToSlot(bits: seq<bool>, finalizedSlot: nat, targetSlot: nat): (r: seq<bool>)
    ensures forall s :: Justified(r, finalizedSlot, s) <==> Justified(bits, finalizedSlot, s)
    ensures IsSlotJustified(r, finalizedSlot, targetSlot).Some?
    ensures |r| == |bits| || (|bits| < |r| == targetSlot - finalizedSlot)
  {
    match JustifiedIndexAfter(finalizedSlot, targetSlot)
    case None => bits
    case Some(index) =>
      if index + 1 <= |bits| then bits
      else bits + seq(index + 1 - |bits|, _ => false)
  }

  /** None is the `nullopt` whose `value()` throws. */
  function IsSlotJustified(bits: seq<bool>, finalizedSlot: nat, targetSlot: nat): (r: Option<bool>)
    ensures r.Some? <==> targetSlot <= finalizedSlot + |bits|
    ensures r.Some? ==> (r.value <==> Justified(bits, finalizedSlot, targetSlot))
  {
    match JustifiedIndexAfter(finalizedSlot, targetSlot)
    case None => Some(true)
    case Some(index) => if index >= |bits| then None else Some(bits[index])
  }

  /** Marks exactly one slot; None is the exception of `bits.at`. */
  function WithJustified(bits: seq<bool>, finalizedSlot: nat, targetSlot: nat): (r: Option<seq<bool>>)
    ensures r.Some? <==> targetSlot <= finalizedSlot + |bits|
    ensures r.Some? ==> |r.value| == |bits|
    ensures r.Some? ==> forall s ::
              Justified(r.value, finalizedSlot, s) <==> (Justified(bits, finalizedSlot, s) || s == targetSlot)
  {
    match JustifiedIndexAfter(finalizedSlot, targetSlot)
    case None => Some(bits)
    case Some(index) => if index >= |bits| then None else Some(bits[index := true])
  }

  function ShiftWindow(bits: seq<bool>, delta: nat): seq<bool> {
    if delta <= |bits| then bits[delta..] else []
  }

  /** Rebasing by the finality advance keeps the status of every slot above the new boundary. */
  lemma ShiftKeepsStatus(bits: seq<bool>, finalizedSlot: nat, delta: nat)
    ensures forall s :: s > finalizedSlot + delta ==>
              (Justified(ShiftWindow(bits, delta), finalizedSlot + delta, s) <==> Justified(bits, finalizedSlot, s))
    ensures delta <= |bits| ==> |ShiftWindow(bits, delta)| == |bits| - delta
  {
  }

  /**
   * Along a chain a window is only extended, marked and rebased forward, and under those three
   * operations no slot ever goes from justified to unjustified.
   */
  lemma NeverUnjustified(bits: seq<bool>, finalizedSlot: nat, targetSlot: nat, delta: nat, s: nat)
    requires Justified(bits, finalizedSlot, s)
    ensures Justified(ExtendToSlot(bits, finalizedSlot, targetSlot), finalizedSlot, s)
    ensures var m := WithJustified(bits, finalizedSlot, targetSlot);
            m.Some? ==> Justified(m.value, finalizedSlot, s)
    ensures Justified(ShiftWindow(bits, delta), finalizedSlot + delta, s)
  {
    ShiftKeepsStatus(bits, finalizedSlot, delta);
  }
}
