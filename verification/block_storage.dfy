/**
 * The database behind the block tree: block headers, the slot-to-hash index and the leaf list. The
 * index of a chain is defined from parent links alone; the storage operations are shown to move
 * it along a reorganisation.
 */
module BlockStorages {
  import opened Types
  import opened RootOrder
  import opened Forests

  /** Slot to list of block hashes; an absent slot is an empty list. */
  type SlotIndex = map<nat, seq<Root>>

  function GetBlockHash(index: SlotIndex, slot: nat): seq<Root> {
    if slot in index then index[slot] else []
  }

  /** `assignHashToSlot` stores the bare hash, which reads back as a list of one. */
  function Assigned(index: SlotIndex, b: BlockIndex): SlotIndex {
    if b.hash in GetBlockHash(index, b.slot) then index else index[b.slot := [b.hash]]
  }

  function RemoveAll(s: seq<Root>, x: Root): seq<Root> {
    if s == [] then [] else if s[0] == x then RemoveAll(s[1..], x) else [s[0]] + RemoveAll(s[1..], x)
  }

  function Deassigned(index: SlotIndex, b: BlockIndex): SlotIndex {
    var hashes := GetBlockHash(index, b.slot);
    if b.hash !in hashes then index
    else
      var rest := RemoveAll(hashes, b.hash);
      if rest == [] then index - {b.slot} else index[b.slot := rest]
  }

  function RevertAll(index: SlotIndex, blocks: seq<BlockIndex>): SlotIndex {
    if blocks == [] then index else RevertAll(Deassigned(index, blocks[0]), blocks[1..])
  }

  function ApplyAll(index: SlotIndex, blocks: seq<BlockIndex>): SlotIndex {
    if blocks == [] then index
    else Assigned(ApplyAll(index, blocks[..|blocks| - 1]), blocks[|blocks| - 1])
  }

  // ----- the index of a chain

  lemma DeassignedDrops(index: SlotIndex, b: BlockIndex)
    ensures b.hash !in GetBlockHash(Deassigned(index, b), b.slot)
  {
    var hashes := GetBlockHash(index, b.slot);
    if b.hash in hashes { RemoveAllDrops(hashes, b.hash); }
  }

  lemma {:induction false} RemoveAllDrops(hashes: seq<Root>, hash: Root)
    ensures hash !in RemoveAll(hashes, hash)
  {
    if hashes != [] {
      RemoveAllDrops(hashes[1..], hash);
    }
  }

  /** One entry per ancestor-or-self of `b`, at its own slot. */
  ghost function CanonicalIndex(f: Forest, b: Root): SlotIndex
    requires WellFormed(f) && b in f
    decreases f[b].slot
  {
    if HasParent(f, b) then CanonicalIndex(f, Parent(f, b))[f[b].slot := [b]] else map[f[b].slot := [b]]
  }

  /** The entries of the index are exactly the ancestors-or-self of `b`. */
  lemma {:induction false} CanonicalMeaning(f: Forest, b: Root, slot: nat, a: Root)
    requires WellFormed(f) && b in f
    ensures GetBlockHash(CanonicalIndex(f, b), slot) == [a]
         <==> a in f && IsAncestor(f, a, b) && f[a].slot == slot
    ensures slot > f[b].slot ==> slot !in CanonicalIndex(f, b)
    decreases f[b].slot
  {
    if IsAncestor(f, a, b) { AncestorSlot(f, a, b); }
    if HasParent(f, b) {
      CanonicalMeaning(f, Parent(f, b), slot, a);
      if slot == f[b].slot && IsAncestor(f, a, Parent(f, b)) { AncestorSlot(f, a, Parent(f, b)); }
    }
  }

  /** Every slot of the index holds a single block. */
  lemma {:induction false} CanonicalSingletons(f: Forest, b: Root, slot: nat)
    requires WellFormed(f) && b in f && slot in CanonicalIndex(f, b)
    ensures |CanonicalIndex(f, b)[slot]| == 1
    decreases f[b].slot
  {
    if HasParent(f, b) && slot != f[b].slot {
      CanonicalSingletons(f, Parent(f, b), slot);
    }
  }

  /** Every index entry is a stored block of that slot. */
  ghost predicate IndexOk(f: Forest, index: SlotIndex) {
    forall s, b | s in index && b in index[s] :: b in f && f[b].slot == s
  }

  lemma {:induction false} CanonicalIndexOk(f: Forest, b: Root)
    requires WellFormed(f) && b in f
    ensures IndexOk(f, CanonicalIndex(f, b))
    decreases f[b].slot
  {
    if HasParent(f, b) {
      var front := CanonicalIndex(f, Parent(f, b));
      CanonicalIndexOk(f, Parent(f, b));
      assert CanonicalIndex(f, b) == front[f[b].slot := [b]];
    }
  }

  lemma RevertOne(f: Forest, b: Root)
    requires WellFormed(f) && HasParent(f, b)
    ensures Deassigned(CanonicalIndex(f, b), BlockIndex(f[b].slot, b)) == CanonicalIndex(f, Parent(f, b))
  {
    CanonicalMeaning(f, Parent(f, b), f[b].slot, b);
    assert RemoveAll([b], b) == [];
  }

  lemma ApplyOne(f: Forest, b: Root)
    requires WellFormed(f) && HasParent(f, b)
    ensures Assigned(CanonicalIndex(f, Parent(f, b)), BlockIndex(f[b].slot, b)) == CanonicalIndex(f, b)
  {
    CanonicalMeaning(f, Parent(f, b), f[b].slot, b);
  }

  lemma {:induction false} RevertPath(f: Forest, a: Root, b: Root)
    requires WellFormed(f) && IsAncestor(f, a, b)
    ensures a in f && RevertAll(CanonicalIndex(f, b), Indexes(f, UpPath(f, a, b))) == CanonicalIndex(f, a)
    decreases f[b].slot
  {
    if a != b {
      RevertOne(f, b);
      RevertPath(f, a, Parent(f, b));
      assert Indexes(f, UpPath(f, a, b))[1..] == Indexes(f, UpPath(f, a, Parent(f, b)));
    }
  }

  lemma {:induction false} ApplyPath(f: Forest, a: Root, b: Root)
    requires WellFormed(f) && IsAncestor(f, a, b)
    ensures a in f && ApplyAll(CanonicalIndex(f, a), Indexes(f, DownPath(f, a, b))) == CanonicalIndex(f, b)
    decreases f[b].slot
  {
    if a != b {
      ApplyPath(f, a, Parent(f, b));
      ApplyOne(f, b);
      var path := Indexes(f, DownPath(f, a, b));
      assert path[..|path| - 1] == Indexes(f, DownPath(f, a, Parent(f, b)));
    }
  }

  /** Reverting and applying a reorganisation moves the index from one chain to the other. */
  lemma ReorgMovesIndex(f: Forest, from: Root, to: Root, r: Reorg)
    requires WellFormed(f) && IsReorg(f, from, to, r) && from in f && to in f
    ensures ApplyAll(RevertAll(CanonicalIndex(f, from), r.revert), r.apply) == CanonicalIndex(f, to)
  {
    RevertPath(f, r.common.hash, from);
    ApplyPath(f, r.common.hash, to);
  }

  // ----- the index does not depend on blocks off the chain

  lemma {:induction false} AncestorFrame(f: Forest, g: Forest, a: Root, b: Root)
    requires WellFormed(f) && WellFormed(g) && IsAncestor(f, a, b)
    requires forall x | x in f && IsAncestor(f, x, b) :: x in g && g[x] == f[x]
    ensures IsAncestor(g, a, b)
    decreases f[b].slot
  {
    assert IsAncestor(f, b, b);
    if a != b {
      var p := Parent(f, b);
      assert IsAncestor(f, p, b) by { assert IsAncestor(f, p, p); }
      AncestorFrame(f, g, a, p);
    }
  }

  lemma {:induction false} CanonicalFrame(f: Forest, g: Forest, b: Root)
    requires WellFormed(f) && WellFormed(g) && b in f
    requires forall x | x in f && IsAncestor(f, x, b) :: x in g && g[x] == f[x] && (HasParent(g, x) <==> HasParent(f, x))
    ensures b in g && CanonicalIndex(g, b) == CanonicalIndex(f, b)
    decreases f[b].slot
  {
    assert IsAncestor(f, b, b);
    if HasParent(f, b) {
      assert IsAncestor(f, Parent(f, b), b) by { assert IsAncestor(f, Parent(f, b), Parent(f, b)); }
      CanonicalFrame(f, g, Parent(f, b));
    }
  }

  ghost function Hashes(blocks: seq<BlockIndex>): set<Root> {
    set i | 0 <= i < |blocks| :: blocks[i].hash
  }

  lemma HashesAppend(blocks: seq<BlockIndex>, i: nat)
    requires i < |blocks|
    ensures Hashes(blocks[..i + 1]) == Hashes(blocks[..i]) + {blocks[i].hash}
  {
    var next := blocks[..i + 1];
    assert next[i].hash in Hashes(next);
    forall x | x in Hashes(blocks[..i]) ensures x in Hashes(next) {
      var j :| 0 <= j < i && blocks[..i][j].hash == x;
      assert next[j].hash == x;
    }
  }

  class BlockStorage {
    var headers: Forest
    var index: SlotIndex
    /** The leaf list in the database and its in-memory copy. */
    var storedLeaves: Option<seq<Root>>
    var cachedLeaves: Option<seq<Root>>

    ghost predicate LeavesInSync()
      reads this
    {
      cachedLeaves.Some? ==> storedLeaves == cachedLeaves
    }

    /** A database that holds one block. */
    constructor (block: BlockIndex)
      ensures headers == map[block.hash := Node(block.slot, None)]
      ensures index == map[block.slot := [block.hash]]
      ensures storedLeaves == Some([block.hash]) && cachedLeaves == None
    {
      headers := map[block.hash := Node(block.slot, None)];
      index := map[block.slot := [block.hash]];
      storedLeaves := Some([block.hash]);
      cachedLeaves := None;
    }

    method SetBlockTreeLeaves(leaves: set<Root>)
      requires LeavesInSync()
      modifies this`storedLeaves, this`cachedLeaves
      ensures LeavesInSync() && storedLeaves == cachedLeaves == Some(SortedRoots(leaves))
    {
      var sorted := SortRoots(leaves);
      if cachedLeaves == Some(sorted) {
        return;
      }
      storedLeaves := Some(sorted);
      cachedLeaves := Some(sorted);
    }

    method AssignHashToSlot(b: BlockIndex)
      modifies this`index
      ensures index == Assigned(old(index), b)
    {
      var hashes := GetBlockHash(index, b.slot);
      if b.hash !in hashes {
        index := index[b.slot := [b.hash]];
      }
    }

    method DeassignHashToSlot(b: BlockIndex)
      modifies this`index
      ensures index == Deassigned(old(index), b)
    {
      var hashes := GetBlockHash(index, b.slot);
      if b.hash in hashes {
        hashes := RemoveAll(hashes, b.hash);
        if hashes == [] {
          index := index - {b.slot};
        } else {
          index := index[b.slot := hashes];
        }
      }
    }

    /** Moves the index from the chain of `from` to the chain of `to`. */
    method ApplyReorg(r: Reorg, ghost from: Root, ghost to: Root)
      requires WellFormed(headers) && from in headers && to in headers
      requires IsReorg(headers, from, to, r) && index == CanonicalIndex(headers, from)
      modifies this`index
      ensures index == CanonicalIndex(headers, to)
    {
      ReorgMovesIndex(headers, from, to, r);
      ghost var start := index;
      for i := 0 to |r.revert|
        invariant RevertAll(index, r.revert[i..]) == RevertAll(start, r.revert)
      {
        assert r.revert[i..][1..] == r.revert[i + 1..];
        DeassignHashToSlot(r.revert[i]);
      }
      ghost var mid := index;
      for i := 0 to |r.apply|
        invariant index == ApplyAll(mid, r.apply[..i])
      {
        assert r.apply[..i + 1][..i] == r.apply[..i];
        AssignHashToSlot(r.apply[i]);
      }
      assert r.apply[..|r.apply|] == r.apply;
    }

    method PutBlock(hash: Root, header: Node)
      modifies this`headers
      ensures headers == old(headers)[hash := header]
    {
      headers := headers[hash := header];
    }

    /** Removes a block and, when it is the only one at its slot, its index entry. */
    method RemoveBlock(hash: Root)
      modifies this`headers, this`index
      ensures headers == old(headers) - {hash}
      ensures index == if hash in old(headers) && GetBlockHash(old(index), old(headers[hash]).slot) == [hash]
                       then old(index) - {old(headers[hash]).slot} else old(index)
    {
      if hash !in headers {
        return;
      }
      var slot := headers[hash].slot;
      if slot in index && index[slot] == [hash] {
        index := index - {slot};
      }
      headers := headers - {hash};
    }

    /** Takes a block off the index and out of the database. */
    method Forget(b: BlockIndex)
      requires b.hash in headers && headers[b.hash].slot == b.slot
      modifies this`headers, this`index
      ensures headers == old(headers) - {b.hash} && index == Deassigned(old(index), b)
    {
      DeassignedDrops(index, b);
      DeassignHashToSlot(b);
      RemoveBlock(b.hash);
    }

    /** Removes blocks that are not on the chain of `best`: the index stays the index of that chain. */
    method RemoveBlocks(prune: seq<BlockIndex>, ghost best: Root)
      requires WellFormed(headers) && best in headers && index == CanonicalIndex(headers, best)
      requires forall i | 0 <= i < |prune| :: !IsAncestor(headers, prune[i].hash, best)
      modifies this`headers, this`index
      ensures headers == old(headers) - Hashes(prune)
      ensures index == old(index)
    {
      for i := 0 to |prune|
        invariant headers == old(headers) - Hashes(prune[..i])
        invariant index == old(index)
      {
        var hash := prune[i].hash;
        if hash in headers {
          CanonicalMeaning(old(headers), best, headers[hash].slot, hash);
        }
        HashesAppend(prune, i);
        RemoveBlock(hash);
      }
      assert prune[..|prune|] == prune;
    }
  }
}
