/** Which slots may be justified, as a function of their distance from finality. */
module Justifiable {
  import opened Types

  function Square(x: nat): nat {
    x * x
  }

  function Pronic(x: nat): nat {
    x * x + x
  }

  /** Distances up to 5, square numbers and pronic numbers. */
  predicate IsJustifiableDistance(d: nat) {
    || d <= 5
    || (exists x :: 0 <= x <= d && Square(x) == d)
    || (exists x :: 0 <= x <= d && Pronic(x) == d)
  }

  /**
   * What `isJustifiableSlot` does with a slot below the finalized one: a debug build fails its
   * assertion, a release build answers whatever the wrapped-around distance gives.
   */
  datatype Build = Debug | Release(below: (nat, nat) -> bool)

  /** `isJustifiableSlot`; None is the failed assertion. */
  function IsJustifiableSlot(build: Build, finalizedSlot: nat, candidate: nat): Option<bool> {
    if finalizedSlot <= candidate then Some(IsJustifiableDistance(candidate - finalizedSlot))
    else
      match build
      case Debug => None
      case Release(below) => Some(below(finalizedSlot, candidate))
  }

  /** Not before finality and at a justifiable distance from it. */
  predicate JustifiableAfter(finalizedSlot: nat, slot: nat) {
    finalizedSlot <= slot && IsJustifiableDistance(slot - finalizedSlot)
  }

  /** Some slot strictly between source and target may be justified. */
  ghost predicate AnyJustifiableBetween(finalizedSlot: nat, lo: nat, hi: nat) {
    exists s :: lo < s < hi && JustifiableAfter(finalizedSlot, s)
  }

  /** The scan that decides whether the source is finalized, from `slot` on; None is the failed assertion. */
  ghost function ScanFrom(build: Build, finalizedSlot: nat, slot: nat, hi: nat): Option<bool>
    decreases hi - slot
  {
    if slot >= hi then Some(false)
    else
      var justifiable := IsJustifiableSlot(build, finalizedSlot, slot);
      if justifiable == Some(false) then ScanFrom(build, finalizedSlot, slot + 1, hi) else justifiable
  }

  method ScanBetween(build: Build, finalizedSlot: nat, lo: nat, hi: nat) returns (found: Option<bool>)
    ensures found == ScanFrom(build, finalizedSlot, lo + 1, hi)
  {
    var slot := lo + 1;
    while slot < hi
      invariant ScanFrom(build, finalizedSlot, slot, hi) == ScanFrom(build, finalizedSlot, lo + 1, hi)
    {
      var justifiable := IsJustifiableSlot(build, finalizedSlot, slot);
      if justifiable.None? {
        return None;
      }
      if justifiable.value {
        return Some(true);
      }
      slot := slot + 1;
    }
    return Some(false);
  }

  /**
   * What the scan below a target above finality decides. A scan that starts below finality meets the
   * finalized slot itself, at distance 0, so its result does not depend on the answers below finality;
   * the assertion fails exactly when the first slot of the scan is below finality.
   */
  lemma {:induction false} ScanMeaning(build: Build, finalizedSlot: nat, lo: nat, hi: nat)
    requires finalizedSlot < hi
    ensures ScanFrom(build, finalizedSlot, lo + 1, hi)
         == if build.Debug? && lo + 1 < finalizedSlot then None
            else Some(AnyJustifiableBetween(finalizedSlot, lo, hi))
    decreases hi - lo
  {
    var slot := lo + 1;
    if slot < hi {
      ScanMeaning(build, finalizedSlot, slot, hi);
      ScanStep(finalizedSlot, lo, hi);
      if slot < finalizedSlot {
        ScanAcrossFinality(finalizedSlot, slot, hi);
        match build {
          case Debug =>
            assert IsJustifiableSlot(build, finalizedSlot, slot) == None;
          case Release(below) =>
            if below(finalizedSlot, slot) {
              assert IsJustifiableSlot(build, finalizedSlot, slot) == Some(true);
            } else {
              assert IsJustifiableSlot(build, finalizedSlot, slot) == Some(false);
            }
        }
      } else {
        assert IsJustifiableSlot(build, finalizedSlot, slot) == Some(JustifiableAfter(finalizedSlot, slot));
      }
    }
  }

  lemma ScanStep(finalizedSlot: nat, lo: nat, hi: nat)
    requires lo + 1 < hi
    ensures AnyJustifiableBetween(finalizedSlot, lo, hi)
       <==> JustifiableAfter(finalizedSlot, lo + 1) || AnyJustifiableBetween(finalizedSlot, lo + 1, hi)
  {
    if AnyJustifiableBetween(finalizedSlot, lo, hi) && !JustifiableAfter(finalizedSlot, lo + 1) {
      var s :| lo < s < hi && JustifiableAfter(finalizedSlot, s);
      assert lo + 1 < s;
    }
  }

  lemma ScanAcrossFinality(finalizedSlot: nat, lo: nat, hi: nat)
    requires lo < finalizedSlot < hi
    ensures AnyJustifiableBetween(finalizedSlot, lo, hi)
  {
    assert JustifiableAfter(finalizedSlot, finalizedSlot);
  }

  /** `x` is the integer square root of `d`. */
  ghost predicate IsIsqrt(x: nat, d: nat) {
    Square(x) <= d < Square(x + 1)
  }

  lemma {:induction false} IsqrtExists(d: nat) returns (x: nat)
    ensures IsIsqrt(x, d)
  {
    if d == 0 {
      x := 0;
    } else {
      x := IsqrtExists(d - 1);
      NextSquare(x);
      NextSquare(x + 1);
      if Square(x + 1) <= d { x := x + 1; }
    }
  }

  lemma NextSquare(x: nat)
    ensures Square(x + 1) == Square(x) + 2 * x + 1
  {
  }

  /** Walking back from any distance meets a justifiable one within isqrt(d) slots. */
  lemma JustifiableWithinIsqrt(d: nat, x: nat) returns (j: nat)
    requires IsIsqrt(x, d)
    ensures d - x <= j <= d
    ensures IsJustifiableDistance(j)
  {
    NextSquare(x);
    j := if Pronic(x) <= d then Pronic(x) else Square(x);
    JustifiableForms(x);
  }

  lemma JustifiableForms(x: nat)
    ensures IsJustifiableDistance(Square(x)) && IsJustifiableDistance(Pronic(x))
  {
    SquareBound(x);
  }

  lemma SquareBound(x: nat)
    ensures x <= Square(x)
  {
    if x > 0 {
      assert x * 1 <= x * x;
    }
  }

  /** The bound is tight: right below the square of x + 1 the nearest justifiable distance is x back. */
  lemma GapBelowASquareIsFull(x: nat, j: nat)
    requires x >= 3 && Square(x + 1) - 1 - x < j < Square(x + 1)
    ensures IsIsqrt(x, Square(x + 1) - 1) && !IsJustifiableDistance(j)
  {
    NextSquare(x);
    assert Pronic(x) < j;
    assert Square(x) >= 9 by { SquareMono(3, x); }
    forall y | 0 <= y <= j ensures Square(y) != j && Pronic(y) != j {
      if y <= x { SquareMono(y, x); } else { SquareMono(x + 1, y); }
    }
  }

  lemma SquareMono(a: nat, b: nat)
    requires a <= b
    ensures Square(a) <= Square(b) && Pronic(a) <= Pronic(b)
  {
    assert a * a <= a * b <= b * b;
  }
}
