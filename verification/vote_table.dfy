/**
 * Pending votes: for every candidate root one bit per validator. The state stores the table as two
 * flat lists; this module rebuilds and flattens it and counts voters.
 */
module VoteTable {
  import opened Types
  import opened RootOrder
  import opened AggregationBits

  type Justifications = map<Root, seq<bool>>

  /** Every row has one bit per validator. */
  ghost predicate RowsOfSize(table: Justifications, n: nat) {
    forall r | r in table :: |table[r]| == n
  }

  method CountVotes(bits: seq<bool>) returns (count: nat)
    ensures count == |Voters(bits)|
  {
    count := 0;
    assert bits[..0] == [];
    for i := 0 to |bits|
      invariant count == |Voters(bits[..i])|
    {
      assert Voters(bits[..i + 1]) == Voters(bits[..i]) + if bits[i] then {i} else {};
      if bits[i] {
        count := count + 1;
      }
    }
    assert bits[..|bits|] == bits;
  }

  /**
   * Adds the votes of an aggregate to a row; None when some voter is not a known validator.
   */
  method RecordVotes(row: seq<bool>, votes: seq<bool>) returns (r: Option<seq<bool>>)
    ensures r.Some? <==> (forall v | v in Voters(votes) :: v < |row|)
    ensures r.Some? ==> r.value == MergeVotes(row, votes)
  {
    var acc := row;
    for i := 0 to |votes|
      invariant |acc| == |row|
      invariant forall v | v in Voters(votes) && v < i :: v < |row|
      invariant forall j | 0 <= j < |row| :: acc[j] == (row[j] || (j < i && votes[j]))
    {
      if votes[i] {
        if i >= |acc| {
          assert i in Voters(votes);
          return None;
        }
        if !acc[i] {
          acc := acc[i := true];
        }
      }
    }
    return Some(acc);
  }

  /** The union of two rows, cut to the size of the first. */
  function MergeVotes(row: seq<bool>, votes: seq<bool>): (r: seq<bool>)
    ensures |r| == |row|
    ensures (forall v | v in Voters(votes) :: v < |row|) ==> Voters(r) == Voters(row) + Voters(votes)
  {
    var r := seq(|row|, j requires 0 <= j < |row| => row[j] || (j < |votes| && votes[j]));
    assert (forall v | v in Voters(votes) :: v < |row|) ==> Voters(r) == Voters(row) + Voters(votes) by {
      if forall v | v in Voters(votes) :: v < |row| {
        forall v | v in Voters(row) + Voters(votes) ensures v in Voters(r) {
          assert r[v];
        }
      }
    }
    r
  }

  // ----- flattening

  /** The rows of `roots`, back to back. */
  function FlatRows(table: Justifications, roots: seq<Root>): seq<bool>
    requires forall r | r in roots :: r in table
  {
    if roots == [] then []
    else FlatRows(table, roots[..|roots| - 1]) + table[roots[|roots| - 1]]
  }

  /** Cuts the flat list into consecutive rows of `n` bits. */
  function Unflatten(roots: seq<Root>, flat: seq<bool>, n: nat): (table: Justifications)
    requires |flat| == |roots| * n
    ensures table.Keys == set r | r in roots
    ensures RowsOfSize(table, n)
  {
    if roots == [] then map[]
    else
      var k := |roots| - 1;
      assert |roots| * n == k * n + n;
      assert roots == roots[..k] + [roots[k]];
      Unflatten(roots[..k], flat[..k * n], n)[roots[k] := flat[k * n..]]
  }

  method RebuildTable(roots: seq<Root>, flat: seq<bool>, n: nat) returns (table: Justifications)
    requires |flat| == |roots| * n
    ensures table == Unflatten(roots, flat, n)
  {
    table := map[];
    var offset := 0;
    for i := 0 to |roots|
      invariant offset == i * n <= |flat|
      invariant table == Unflatten(roots[..i], flat[..offset], n)
    {
      assert (i + 1) * n == i * n + n;
      assert (i + 1) * n <= |roots| * n by { MulLe(i + 1, |roots|, n); }
      var next := offset + n;
      assert roots[..i + 1][..i] == roots[..i];
      assert flat[..next][..offset] == flat[..offset];
      assert flat[..next][offset..] == flat[offset..next];
      table := table[roots[i] := flat[offset..next]];
      offset := next;
    }
    assert roots[..|roots|] == roots && flat[..|flat|] == flat;
  }

  lemma MulLe(a: nat, b: nat, n: nat)
    requires a <= b
    ensures a * n <= b * n
  {
  }

  /**
   * `setJustifications`: iterates the ordered map; None is the failed size assertion.
   */
  method FlattenTable(table: Justifications, n: nat) returns (r: Option<(seq<Root>, seq<bool>)>)
    ensures r.Some? <==> RowsOfSize(table, n)
    ensures r.Some? ==> r.value.0 == SortedRoots(table.Keys)
    ensures r.Some? ==> r.value.1 == FlatRows(table, r.value.0)
  {
    var roots := SortRoots(table.Keys);
    SortedKeys(table, roots);
    var flat: seq<bool> := [];
    for i := 0 to |roots|
      invariant forall j | 0 <= j < i :: |table[roots[j]]| == n
      invariant flat == FlatRows(table, roots[..i])
    {
      if |table[roots[i]]| != n {
        return None;
      }
      FlatRowsNext(table, roots, i);
      flat := flat + table[roots[i]];
    }
    assert roots[..|roots|] == roots;
    return Some((roots, flat));
  }

  lemma SortedKeys(table: Justifications, roots: seq<Root>)
    requires roots == SortedRoots(table.Keys)
    ensures forall i | 0 <= i < |roots| :: roots[i] in table
    ensures forall q | q in table :: exists i :: 0 <= i < |roots| && roots[i] == q
  {
    assert forall q | q in roots :: q in ToSet(roots);
    assert forall q | q in table :: q in ToSet(roots);
  }

  lemma FlatRowsNext(table: Justifications, roots: seq<Root>, i: nat)
    requires i < |roots| && forall j | 0 <= j < |roots| :: roots[j] in table
    ensures FlatRows(table, roots[..i + 1]) == FlatRows(table, roots[..i]) + table[roots[i]]
  {
    assert roots[..i + 1][..i] == roots[..i];
  }

  // ----- the two directions are inverse

  lemma {:induction false} FlatLength(table: Justifications, roots: seq<Root>, n: nat)
    requires forall r | r in roots :: r in table && |table[r]| == n
    ensures |FlatRows(table, roots)| == |roots| * n
  {
    if roots != [] {
      var k := |roots| - 1;
      FlatLength(table, roots[..k], n);
      assert |roots| * n == k * n + n;
    }
  }

  lemma {:induction false} UnflattenFlat(table: Justifications, roots: seq<Root>, n: nat)
    requires forall r | r in roots :: r in table && |table[r]| == n
    ensures |FlatRows(table, roots)| == |roots| * n
    ensures Unflatten(roots, FlatRows(table, roots), n) == map r | r in roots :: table[r]
  {
    FlatLength(table, roots, n);
    if roots != [] {
      var k := |roots| - 1;
      FlatLength(table, roots[..k], n);
      UnflattenFlat(table, roots[..k], n);
      assert FlatRows(table, roots)[..k * n] == FlatRows(table, roots[..k]);
      assert roots == roots[..k] + [roots[k]];
    }
  }

  /** Pending votes survive a block boundary: rebuilding what was flattened gives the table back. */
  lemma RebuildAfterFlatten(table: Justifications, n: nat)
    requires RowsOfSize(table, n)
    ensures var roots := SortedRoots(table.Keys);
            && (forall r | r in roots :: r in table)
            && |FlatRows(table, roots)| == |roots| * n
            && Unflatten(roots, FlatRows(table, roots), n) == table
  {
    var roots := SortedRoots(table.Keys);
    assert forall r | r in roots :: r in ToSet(roots);
    assert forall r | r in table :: r in ToSet(roots);
    UnflattenFlat(table, roots, n);
  }

  lemma {:induction false} FlatRowsFrame(a: Justifications, b: Justifications, roots: seq<Root>)
    requires forall r | r in roots :: r in a && r in b && a[r] == b[r]
    ensures FlatRows(a, roots) == FlatRows(b, roots)
  {
    if roots != [] {
      FlatRowsFrame(a, b, roots[..|roots| - 1]);
    }
  }

  lemma FlatRowsLast(front: Justifications, roots: seq<Root>, k: nat, row: seq<bool>)
    requires |roots| == k + 1 && roots[k] !in roots[..k]
    requires forall r | r in roots[..k] :: r in front
    ensures (forall r | r in roots :: r in front[roots[k] := row])
    ensures FlatRows(front[roots[k] := row], roots) == FlatRows(front, roots[..k]) + row
  {
    assert roots == roots[..k] + [roots[k]];
    FlatRowsFrame(front, front[roots[k] := row], roots[..k]);
  }

  lemma SplitAt(flat: seq<bool>, m: nat)
    requires m <= |flat|
    ensures flat[..m] + flat[m..] == flat
  {
  }

  lemma {:induction false} FlatUnflatten(roots: seq<Root>, flat: seq<bool>, n: nat)
    requires |flat| == |roots| * n && StrictlySorted(roots)
    ensures FlatRows(Unflatten(roots, flat, n), roots) == flat
  {
    if roots != [] {
      var k := |roots| - 1;
      assert |roots| * n == k * n + n;
      var front, row := Unflatten(roots[..k], flat[..k * n], n), flat[k * n..];
      FlatUnflatten(roots[..k], flat[..k * n], n);
      FlatRowsLast(front, roots, k, row);
      SplitAt(flat, k * n);
    }
  }

  /** The stored form is canonical: flattening what was rebuilt gives the same two lists. */
  lemma FlattenAfterRebuild(roots: seq<Root>, flat: seq<bool>, n: nat)
    requires |flat| == |roots| * n && StrictlySorted(roots)
    ensures var table := Unflatten(roots, flat, n);
            RowsOfSize(table, n) && SortedRoots(table.Keys) == roots && FlatRows(table, roots) == flat
  {
    var table := Unflatten(roots, flat, n);
    assert ToSet(roots) == table.Keys;
    SortedIsUnique(SortedRoots(table.Keys), roots);
    FlatUnflatten(roots, flat, n);
  }
}
