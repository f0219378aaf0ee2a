/** A list of bits as a set of validator indices. */
module AggregationBits {

  /** The validators whose bit is set (`iter`). */
  function Voters(bits: seq<bool>): set<nat> {
    set i | 0 <= i < |bits| && bits[i]
  }

  predicate Contains(bits: seq<bool>, i: nat) {
    i < |bits| && bits[i]
  }

  /** `contains` is membership. */
  lemma ContainsIsMembership(bits: seq<bool>, i: nat)
    ensures Contains(bits, i) <==> i in Voters(bits)
  {
  }

  /** `add`: grows the list when needed and sets one bit. */
  method Add(bits: seq<bool>, i: nat) returns (r: seq<bool>)
    ensures Voters(r) == Voters(bits) + {i}
  {
    r := bits;
    if |r| <= i {
      r := r + seq(i + 1 - |r|, _ => false);
    }
    r := r[i := true];
    assert r[i];
    forall j ensures j in Voters(r) <==> j in Voters(bits) + {i} {
      if j in Voters(bits) { assert r[j]; }
    }
  }

  /** Adds every set bit of `more`. */
  method AddAll(bits: seq<bool>, more: seq<bool>) returns (r: seq<bool>)
    ensures Voters(r) == Voters(bits) + Voters(more)
  {
    r := bits;
    for i := 0 to |more|
      invariant Voters(r) == Voters(bits) + Voters(more[..i])
    {
      assert Voters(more[..i + 1]) == Voters(more[..i]) + if more[i] then {i} else {};
      if more[i] {
        r := Add(r, i);
      }
    }
    assert more[..|more|] == more;
  }

  /** Every bit of `a` is set in `b`. */
  method IsSubset(a: seq<bool>, b: seq<bool>) returns (r: bool)
    ensures r <==> Voters(a) <= Voters(b)
  {
    for i := 0 to |a|
      invariant forall j | 0 <= j < i && a[j] :: Contains(b, j)
    {
      if a[i] && !Contains(b, i) {
        assert i in Voters(a) && i !in Voters(b);
        return false;
      }
    }
    return true;
  }

  lemma SubsetSize(a: set<nat>, b: set<nat>)
    requires a <= b
    ensures |a| <= |b|
  {
    assert b == a + (b - a);
  }
}
