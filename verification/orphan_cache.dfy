/**
 * Blocks that wait for a missing ancestor, and the votes that wait for them. A map from hash to block
 * and a multimap from parent to child are kept in step; draining from a block delivers everything
 * that was waiting for it, parent first.
 */
module OrphanCaches {
  import opened Types

  datatype OrphanBlock = OrphanBlock(slot: nat, parent: Root, content: nat)

  /** A vote, or an aggregated vote, for a block that is not known yet. */
  datatype PendingVote = PendingVote(headSlot: nat, content: nat)

  /** A multimap from head root to votes; an absent key has no votes. */
  type VoteCache = map<Root, seq<PendingVote>>

  function Waiting(cache: VoteCache, hash: Root): seq<PendingVote> {
    if hash in cache then cache[hash] else []
  }

  function WithVote(cache: VoteCache, head: Root, vote: PendingVote): VoteCache {
    cache[head := Waiting(cache, head) + [vote]]
  }

  ghost predicate VotesLater(cache: VoteCache, slot: nat) {
    forall h, i | h in cache && 0 <= i < |cache[h]| :: cache[h][i].headSlot > slot
  }

  datatype VoteReceipt = HandedOn | TooOld | Held

  /** One call of the consumer. */
  datatype Delivery =
    Delivery(good: bool, hash: Root, block: OrphanBlock, votes: seq<PendingVote>, aggregated: seq<PendingVote>)

  /** What `receiveBlock` did; ErasedEntry is the use of an erased multimap entry. */
  datatype Receipt = Ignored | Waits | Drained(log: seq<Delivery>) | ErasedEntry

  type Blocks = map<Root, OrphanBlock>

  /** Some cached block waits for `hash`. */
  predicate HasWaiting(blocks: Blocks, hash: Root) {
    exists h :: h in blocks && blocks[h].parent == hash
  }

  /** The multimap that belongs to a block map: one edge per block. */
  ghost function Edges(blocks: Blocks): multiset<(Root, Root)> {
    multiset(set h | h in blocks :: (blocks[h].parent, h))
  }

  lemma EdgesInsert(blocks: Blocks, h: Root, b: OrphanBlock)
    requires h !in blocks
    ensures Edges(blocks[h := b]) == Edges(blocks) + multiset{(b.parent, h)}
  {
    var before := set x | x in blocks :: (blocks[x].parent, x);
    var more := blocks[h := b];
    var after := set x | x in more :: (more[x].parent, x);
    assert after == before + {(b.parent, h)} by {
      forall e ensures e in after <==> e in before + {(b.parent, h)} {
        if e in before { assert more[e.1] == blocks[e.1]; }
        assert (more[h].parent, h) in after;
      }
    }
  }

  lemma EdgesRemove(blocks: Blocks, h: Root)
    requires h in blocks
    ensures Edges(blocks - {h}) == Edges(blocks) - multiset{(blocks[h].parent, h)}
  {
    EdgesInsert(blocks - {h}, h, blocks[h]);
    assert (blocks - {h})[h := blocks[h]] == blocks;
  }

  lemma EdgeMember(blocks: Blocks, p: Root, c: Root)
    ensures (p, c) in Edges(blocks) <==> c in blocks && blocks[c].parent == p
  {
    var edges := set x | x in blocks :: (blocks[x].parent, x);
    if c in blocks && blocks[c].parent == p {
      assert (blocks[c].parent, c) in edges;
    }
  }

  // ----- what a drain must do

  ghost function Delivered(log: seq<Delivery>): set<Root> {
    set i | 0 <= i < |log| :: log[i].hash
  }

  /** Each delivery carries its block and exactly the votes that waited for it. */
  ghost predicate Faithful(blocks: Blocks, votes: VoteCache, aggregated: VoteCache, log: seq<Delivery>) {
    forall i | 0 <= i < |log| ::
      && log[i].hash in blocks && log[i].block == blocks[log[i].hash]
      && log[i].votes == Waiting(votes, log[i].hash)
      && log[i].aggregated == Waiting(aggregated, log[i].hash)
  }

  ghost predicate NoneTwice(log: seq<Delivery>) {
    forall i, j | 0 <= i < j < |log| :: log[i].hash != log[j].hash
  }

  /** A block with this parent and flag follows a delivery of the parent and takes its verdict. */
  ghost predicate Follows(verdict: (nat, Delivery) -> bool, log: seq<Delivery>, parent: Root, good: bool) {
    exists j :: 0 <= j < |log| && log[j].hash == parent && good == verdict(j, log[j])
  }

  /** Starts with `init`; every later block comes after its parent. */
  ghost predicate ParentFirst(verdict: (nat, Delivery) -> bool, initGood: bool, init: Root, log: seq<Delivery>) {
    && (|log| > 0 ==> log[0].hash == init && log[0].good == initGood)
    && forall i | 0 < i < |log| :: Follows(verdict, log[..i], log[i].block.parent, log[i].good)
  }

  /** Nothing that waits for a member is outside. */
  ghost predicate Closed(blocks: Blocks, s: set<Root>) {
    forall h | h in blocks && blocks[h].parent in s :: h in s
  }

  /** A drained set is the least closed one: exactly the cached descendants-or-self of the start. */
  lemma DrainIsLeast(blocks: Blocks, votes: VoteCache, aggregated: VoteCache, verdict: (nat, Delivery) -> bool,
                     initGood: bool, init: Root, log: seq<Delivery>, s: set<Root>)
    requires Faithful(blocks, votes, aggregated, log) && ParentFirst(verdict, initGood, init, log)
    requires init in s && Closed(blocks, s)
    ensures Delivered(log) <= s
  {
    forall i | 0 <= i < |log| ensures log[i].hash in s {
      DeliveredInClosed(blocks, votes, aggregated, verdict, initGood, init, log, s, i);
    }
  }

  lemma {:induction false} DeliveredInClosed(blocks: Blocks, votes: VoteCache, aggregated: VoteCache,
                                             verdict: (nat, Delivery) -> bool, initGood: bool, init: Root,
                                             log: seq<Delivery>, s: set<Root>, i: nat)
    requires Faithful(blocks, votes, aggregated, log) && ParentFirst(verdict, initGood, init, log)
    requires init in s && Closed(blocks, s) && i < |log|
    ensures log[i].hash in s
    decreases i
  {
    if i > 0 {
      var j :| 0 <= j < |log[..i]| && log[..i][j].hash == log[i].block.parent
               && log[i].good == verdict(j, log[..i][j]);
      DeliveredInClosed(blocks, votes, aggregated, verdict, initGood, init, log, s, j);
    }
  }

  /** A queue of blocks with the flag they will be delivered with. */
  type Queue = seq<(bool, Root)>

  ghost predicate InQueue(queue: Queue, h: Root) {
    exists i :: 0 <= i < |queue| && queue[i].1 == h
  }

  ghost predicate OnceEach(queue: Queue) {
    forall i, j | 0 <= i < j < |queue| :: queue[i].1 != queue[j].1
  }

  /** Everything cached that waits for a delivered block is queued. */
  ghost predicate Covers(blocks: Blocks, log: seq<Delivery>, queue: Queue) {
    forall h | h in blocks && blocks[h].parent in Delivered(log) :: InQueue(queue, h)
  }

  /** Every queued block is cached and comes after the delivery of its parent. */
  ghost predicate AfterParents(blocks: Blocks, verdict: (nat, Delivery) -> bool, log: seq<Delivery>, queue: Queue) {
    forall i | 0 <= i < |queue| ::
      queue[i].1 in blocks && Follows(verdict, log, blocks[queue[i].1].parent, queue[i].0)
  }

  /** The queue is the start, or what follows from the deliveries so far. */
  ghost predicate QueueOk(blocks: Blocks, verdict: (nat, Delivery) -> bool, initGood: bool, init: Root,
                          log: seq<Delivery>, queue: Queue) {
    && OnceEach(queue)
    && Covers(blocks, log, queue)
    && if log == [] then queue == [(initGood, init)] && init in blocks else AfterParents(blocks, verdict, log, queue)
  }

  lemma DeliveredAppend(log: seq<Delivery>, d: Delivery)
    ensures Delivered(log + [d]) == Delivered(log) + {d.hash}
  {
    var more := log + [d];
    assert more[|log|].hash in Delivered(more);
    forall x | x in Delivered(log) ensures x in Delivered(more) {
      var i :| 0 <= i < |log| && log[i].hash == x;
      assert more[i].hash == x;
    }
  }

  lemma FollowsMore(verdict: (nat, Delivery) -> bool, log: seq<Delivery>, d: Delivery, parent: Root, good: bool)
    requires Follows(verdict, log, parent, good)
    ensures Follows(verdict, log + [d], parent, good)
  {
    var j :| 0 <= j < |log| && log[j].hash == parent && good == verdict(j, log[j]);
    assert (log + [d])[j] == log[j];
  }

  /** `kids` lists the cached children of a block, once each, with one flag. */
  ghost predicate AreKids(blocks: Blocks, p: Root, good: bool, kids: Queue) {
    && OnceEach(kids)
    && (forall i | 0 <= i < |kids| :: kids[i].0 == good)
    && (forall c :: InQueue(kids, c) <==> c in blocks && blocks[c].parent == p)
  }

  lemma StepOnceEach(blocks: Blocks, verdict: (nat, Delivery) -> bool, log: seq<Delivery>, queue: Queue,
                     p: Root, kids: Queue)
    requires queue != [] && OnceEach(queue) && OnceEach(kids) && p !in Delivered(log)
    requires AfterParents(blocks, verdict, log, queue[1..])
    requires forall c | InQueue(kids, c) :: c in blocks && blocks[c].parent == p
    ensures OnceEach(queue[1..] + kids)
  {
    var rest := queue[1..];
    forall i, j | 0 <= i < |rest| && 0 <= j < |kids| ensures rest[i].1 != kids[j].1 {
      assert InQueue(kids, kids[j].1);
      var k :| 0 <= k < |log| && log[k].hash == blocks[rest[i].1].parent && rest[i].0 == verdict(k, log[k]);
      assert blocks[rest[i].1].parent in Delivered(log);
    }
  }

  lemma StepCovers(blocks: Blocks, log: seq<Delivery>, queue: Queue, d: Delivery, kids: Queue)
    requires queue != [] && Covers(blocks, log, queue) && d.hash == queue[0].1
    requires AreKids(blocks - {d.hash}, d.hash, kids != [] && kids[0].0, kids)
    ensures Covers(blocks - {d.hash}, log + [d], queue[1..] + kids)
  {
    var rest, q := blocks - {d.hash}, queue[1..] + kids;
    DeliveredAppend(log, d);
    forall h | h in rest && rest[h].parent in Delivered(log + [d]) ensures InQueue(q, h) {
      if blocks[h].parent == d.hash {
        assert InQueue(kids, h);
        var i :| 0 <= i < |kids| && kids[i].1 == h;
        assert q[|queue| - 1 + i].1 == h;
      } else {
        assert InQueue(queue, h);
        var i :| 0 <= i < |queue| && queue[i].1 == h;
        assert q[i - 1].1 == h;
      }
    }
  }

  lemma StepAfterParents(blocks: Blocks, verdict: (nat, Delivery) -> bool, log: seq<Delivery>, queue: Queue,
                         d: Delivery, kids: Queue)
    requires OnceEach(queue) && queue != [] && d.hash == queue[0].1
    requires AfterParents(blocks, verdict, log, queue[1..])
    requires AreKids(blocks - {d.hash}, d.hash, verdict(|log|, d), kids)
    ensures AfterParents(blocks - {d.hash}, verdict, log + [d], queue[1..] + kids)
  {
    var front, rest := queue[1..], blocks - {d.hash};
    forall i | 0 <= i < |front|
      ensures front[i].1 in rest && Follows(verdict, log + [d], rest[front[i].1].parent, front[i].0)
    {
      assert front[i] == queue[i + 1];
      FollowsMore(verdict, log, d, blocks[front[i].1].parent, front[i].0);
    }
    forall i | 0 <= i < |kids|
      ensures kids[i].1 in rest && Follows(verdict, log + [d], rest[kids[i].1].parent, kids[i].0)
    {
      assert InQueue(kids, kids[i].1);
      assert (log + [d])[|log|] == d;
    }
  }

  /** Delivering the front of the queue and queueing its children, in any order. */
  lemma QueueStep(blocks: Blocks, verdict: (nat, Delivery) -> bool, initGood: bool, init: Root,
                  log: seq<Delivery>, queue: Queue, d: Delivery, kids: Queue)
    requires queue != [] && QueueOk(blocks, verdict, initGood, init, log, queue)
    requires d.hash == queue[0].1 && d.hash !in Delivered(log)
    requires AreKids(blocks - {d.hash}, d.hash, verdict(|log|, d), kids)
    ensures QueueOk(blocks - {d.hash}, verdict, initGood, init, log + [d], queue[1..] + kids)
  {
    StepCovers(blocks, log, queue, d, kids);
    StepAfterParents(blocks, verdict, log, queue, d, kids);
    StepOnceEach(blocks, verdict, log, queue, d.hash, kids);
  }

  /** The flag of the next delivery follows from the deliveries before it. */
  lemma LogStep(blocks: Blocks, verdict: (nat, Delivery) -> bool, initGood: bool, init: Root,
                log: seq<Delivery>, queue: Queue, d: Delivery)
    requires queue != [] && QueueOk(blocks, verdict, initGood, init, log, queue)
    requires d.hash == queue[0].1 && d.good == queue[0].0 && d.hash in blocks && d.block == blocks[d.hash]
    requires ParentFirst(verdict, initGood, init, log) && NoneTwice(log) && d.hash !in Delivered(log)
    ensures ParentFirst(verdict, initGood, init, log + [d]) && NoneTwice(log + [d])
  {
    var more := log + [d];
    forall i | 0 < i < |more| ensures Follows(verdict, more[..i], more[i].block.parent, more[i].good) {
      if i < |log| {
        assert more[..i] == log[..i];
      } else {
        assert more[..i] == log;
      }
    }
    forall i | 0 <= i < |log| ensures log[i].hash != d.hash {
      assert log[i].hash in Delivered(log);
    }
  }

  /** The deliveries so far: faithful, once each, parent first. */
  ghost predicate DrainedSoFar(blocks: Blocks, votes: VoteCache, aggregated: VoteCache,
                               verdict: (nat, Delivery) -> bool, initGood: bool, init: Root, log: seq<Delivery>) {
    Faithful(blocks, votes, aggregated, log) && NoneTwice(log) && ParentFirst(verdict, initGood, init, log)
  }

  lemma DropNone<V>(m: map<Root, V>)
    ensures m - Delivered([]) == m
  {
  }

  lemma DropOne<V>(m: map<Root, V>, log: seq<Delivery>, d: Delivery)
    ensures m - Delivered(log) - {d.hash} == m - Delivered(log + [d])
  {
    DeliveredAppend(log, d);
  }

  lemma FrontIsCached(blocks: Blocks, verdict: (nat, Delivery) -> bool, initGood: bool, init: Root,
                      log: seq<Delivery>, queue: Queue)
    requires queue != [] && QueueOk(blocks, verdict, initGood, init, log, queue)
    ensures queue[0].1 in blocks
  {
  }

  lemma DrainStep(blocks: Blocks, votes: VoteCache, aggregated: VoteCache, verdict: (nat, Delivery) -> bool,
                  initGood: bool, init: Root, log: seq<Delivery>, queue: Queue, d: Delivery)
    requires DrainedSoFar(blocks, votes, aggregated, verdict, initGood, init, log)
    requires queue != [] && QueueOk(blocks - Delivered(log), verdict, initGood, init, log, queue)
    requires d.hash == queue[0].1 && d.good == queue[0].0 && d.hash in blocks - Delivered(log)
    requires d.block == blocks[d.hash]
    requires d.votes == Waiting(votes - Delivered(log), d.hash)
    requires d.aggregated == Waiting(aggregated - Delivered(log), d.hash)
    ensures DrainedSoFar(blocks, votes, aggregated, verdict, initGood, init, log + [d])
    ensures blocks - Delivered(log) - {d.hash} == blocks - Delivered(log + [d])
    ensures votes - Delivered(log) - {d.hash} == votes - Delivered(log + [d])
    ensures aggregated - Delivered(log) - {d.hash} == aggregated - Delivered(log + [d])
  {
    LogStep(blocks - Delivered(log), verdict, initGood, init, log, queue, d);
    DropOne(blocks, log, d);
    DropOne(votes, log, d);
    DropOne(aggregated, log, d);
    assert d.votes == Waiting(votes, d.hash) && d.aggregated == Waiting(aggregated, d.hash);
  }

  class OrphanCache {
    var blocks: Blocks
    var children: multiset<(Root, Root)>
    var votes: VoteCache
    var aggregated: VoteCache

    ghost predicate Valid()
      reads this
    {
      children == Edges(blocks)
    }

    constructor ()
      ensures Valid() && blocks == map[] && votes == map[] && aggregated == map[]
    {
      blocks, children, votes, aggregated := map[], multiset{}, map[], map[];
    }

    /** Everything that waits is later than the slot. */
    ghost predicate LaterThan(slot: nat)
      reads this
    {
      && (forall h | h in blocks :: blocks[h].slot > slot)
      && VotesLater(votes, slot) && VotesLater(aggregated, slot)
    }

    /**
     * A gossiped vote, plain or aggregated: one for a known head is handed on, one for a head of a finalized slot is
     * dropped, any other waits for its head. So what waits stays later than the finalized slot.
     */
    method ReceiveVote(head: Root, vote: PendingVote, isAggregated: bool, known: bool, finalizedSlot: nat)
      returns (r: VoteReceipt)
      requires Valid()
      modifies this`votes, this`aggregated
      ensures Valid() && blocks == old(blocks)
      ensures r == if known then HandedOn else if vote.headSlot <= finalizedSlot then TooOld else Held
      ensures votes == if r == Held && !isAggregated then WithVote(old(votes), head, vote) else old(votes)
      ensures aggregated == if r == Held && isAggregated then WithVote(old(aggregated), head, vote) else old(aggregated)
      ensures old(LaterThan(finalizedSlot)) ==> LaterThan(finalizedSlot)
    {
      if known {
        return HandedOn;
      }
      if vote.headSlot <= finalizedSlot {
        return TooOld;
      }
      if isAggregated {
        aggregated := WithVote(aggregated, head, vote);
      } else {
        votes := WithVote(votes, head, vote);
      }
      return Held;
    }

    /** Stores a block that is not cached, with its edge. */
    method Insert(hash: Root, block: OrphanBlock)
      requires Valid() && hash !in blocks
      modifies this`blocks, this`children
      ensures Valid() && blocks == old(blocks)[hash := block]
    {
      EdgesInsert(blocks, hash, block);
      children := children + multiset{(block.parent, hash)};
      blocks := blocks[hash := block];
    }

    /** Takes a cached block out, with its edge. */
    method Remove(hash: Root)
      requires Valid() && hash in blocks
      modifies this`blocks, this`children
      ensures Valid() && blocks == old(blocks) - {hash}
    {
      EdgesRemove(blocks, hash);
      children := children - multiset{(blocks[hash].parent, hash)};
      blocks := blocks - {hash};
    }

    /** The range of the multimap under one parent, in an arbitrary order. */
    method KidsOf(hash: Root, good: bool) returns (kids: Queue)
      requires Valid()
      ensures AreKids(blocks, hash, good, kids)
    {
      kids := [];
      var rest := set e | e in children && e.0 == hash :: e.1;
      ghost var all := rest;
      while rest != {}
        invariant rest <= all && OnceEach(kids)
        invariant forall i | 0 <= i < |kids| :: kids[i].0 == good
        invariant forall c :: InQueue(kids, c) <==> c in all && c !in rest
        decreases rest
      {
        var c :| c in rest;
        KidsAppend(kids, good, c);
        kids := kids + [(good, c)];
        rest := rest - {c};
      }
      forall c ensures c in all <==> c in blocks && blocks[c].parent == hash {
        EdgeMember(blocks, hash, c);
        assert c in all <==> (hash, c) in children;
      }
    }

    /**
     * `consumeBlockTree`: delivers `init` and everything waiting for it. The verdict of the consumer
     * on a block is passed on to its children.
     */
    method Drain(initGood: bool, init: Root, verdict: (nat, Delivery) -> bool) returns (log: seq<Delivery>)
      requires Valid() && init in blocks
      modifies this
      ensures Valid()
      ensures log != [] && DrainedSoFar(old(blocks), old(votes), old(aggregated), verdict, initGood, init, log)
      ensures Closed(old(blocks), Delivered(log))
      ensures blocks == old(blocks) - Delivered(log)
      ensures votes == old(votes) - Delivered(log) && aggregated == old(aggregated) - Delivered(log)
    {
      log := [];
      var queue := [(initGood, init)];
      DropNone(blocks);
      DropNone(votes);
      DropNone(aggregated);
      while queue != []
        invariant Valid() && QueueOk(blocks, verdict, initGood, init, log, queue)
        invariant DrainedSoFar(old(blocks), old(votes), old(aggregated), verdict, initGood, init, log)
        invariant blocks == old(blocks) - Delivered(log)
        invariant votes == old(votes) - Delivered(log) && aggregated == old(aggregated) - Delivered(log)
        decreases blocks.Keys
      {
        var (good, hash) := queue[0];
        FrontIsCached(blocks, verdict, initGood, init, log, queue);
        if hash !in blocks {
          assert false;
        }
        var d := Delivery(good, hash, blocks[hash], Waiting(votes, hash), Waiting(aggregated, hash));
        DrainStep(old(blocks), old(votes), old(aggregated), verdict, initGood, init, log, queue, d);
        ghost var before := blocks;
        Remove(hash);
        votes := votes - {hash};
        aggregated := aggregated - {hash};
        var newGood := verdict(|log|, d);
        var kids := KidsOf(hash, newGood);
        QueueStep(before, verdict, initGood, init, log, queue, d, kids);
        log := log + [d];
        queue := queue[1..] + kids;
      }
      DrainedIsClosed(old(blocks), log);
    }

    /** Forgets blocks and votes at or before the finalized slot. */
    method Prune(finalizedSlot: nat)
      requires Valid()
      modifies this
      ensures Valid() && LaterThan(finalizedSlot)
      ensures blocks == PrunedBlocks(old(blocks), finalizedSlot)
      ensures votes == PrunedVotes(old(votes), finalizedSlot)
      ensures aggregated == PrunedVotes(old(aggregated), finalizedSlot)
    {
      PruneBlocks(finalizedSlot);
      PruneVotes(finalizedSlot);
    }

    method PruneVotes(finalizedSlot: nat)
      modifies this`votes, this`aggregated
      ensures votes == PrunedVotes(old(votes), finalizedSlot) && VotesLater(votes, finalizedSlot)
      ensures aggregated == PrunedVotes(old(aggregated), finalizedSlot) && VotesLater(aggregated, finalizedSlot)
    {
      PrunedIsLater(votes, finalizedSlot);
      PrunedIsLater(aggregated, finalizedSlot);
      votes := PrunedVotes(votes, finalizedSlot);
      aggregated := PrunedVotes(aggregated, finalizedSlot);
    }

    method PruneBlocks(finalizedSlot: nat)
      requires Valid()
      modifies this`blocks, this`children
      ensures Valid()
      ensures blocks == map h | h in old(blocks) && old(blocks)[h].slot > finalizedSlot :: old(blocks)[h]
    {
      var rest := blocks.Keys;
      ghost var gone := {};
      DropTwice(blocks, {}, {});
      while rest != {}
        invariant Valid() && rest <= blocks.Keys && blocks == old(blocks) - gone
        invariant forall h | h in old(blocks) && h !in rest :: h in gone <==> old(blocks)[h].slot <= finalizedSlot
        decreases rest
      {
        var hash :| hash in rest;
        if blocks[hash].slot <= finalizedSlot {
          DropTwice(old(blocks), gone, {hash});
          Remove(hash);
          gone := gone + {hash};
        }
        rest := rest - {hash};
      }
    }

    /**
     * The branch for a block of a finalized slot. The source walks the range of the multimap under
     * `hash` and drains from each child; draining erases the very entry that the walk stands on, so the
     * step to the next entry is undefined. The walk is in order exactly when nothing waits for `hash`.
     */
    method ForgetChildren(hash: Root) returns (ok: bool)
      requires Valid()
      modifies this
      ensures ok <==> !HasWaiting(old(blocks), hash)
      ensures ok ==> Valid() && blocks == old(blocks) && votes == old(votes) && aggregated == old(aggregated)
      ensures !ok ==> exists c :: (hash, c) in Edges(old(blocks)) && (hash, c) !in children
    {
      var range := KidsOf(hash, false);
      if range == [] {
        assert forall h | h in blocks :: blocks[h].parent == hash ==> InQueue(range, h);
        return true;
      }
      var child := range[0].1;
      assert InQueue(range, child);
      EdgeMember(blocks, hash, child);
      var log := Drain(false, child, (i: nat, d: Delivery) => d.good);
      assert child in Delivered(log) by { assert log[0].hash in Delivered(log); }
      EdgeMember(blocks, hash, child);
      return false;
    }

    /**
     * `receiveBlock`: ignores known and finalized blocks, caches the rest, and drains when the parent
     * is imported. `imported` answers for the block tree; finality may move while draining.
     */
    method ReceiveBlock(hash: Root, block: OrphanBlock, imported: Root -> bool, finalizedBefore: nat, finalizedAfter: nat,
                        verdict: (nat, Delivery) -> bool)
      returns (r: Receipt)
      requires Valid()
      modifies this
      ensures r == ErasedEntry <==>
                hash !in old(blocks) && !imported(hash) && block.slot <= finalizedBefore && HasWaiting(old(blocks), hash)
      ensures r != ErasedEntry ==> Valid()
      ensures r == Ignored <==>
                hash in old(blocks) || imported(hash) || (block.slot <= finalizedBefore && !HasWaiting(old(blocks), hash))
      ensures r == Ignored ==> blocks == old(blocks) && votes == old(votes) && aggregated == old(aggregated)
      ensures r == Waits ==> blocks == old(blocks)[hash := block] && votes == old(votes) && aggregated == old(aggregated)
      ensures r.Drained? <==>
                hash !in old(blocks) && !imported(hash) && block.slot > finalizedBefore && imported(block.parent)
      ensures r.Drained? ==>
                var all := old(blocks)[hash := block];
                && r.log != [] && DrainedSoFar(all, old(votes), old(aggregated), verdict, true, hash, r.log)
                && Closed(all, Delivered(r.log))
                && blocks == PrunedBlocks(all - Delivered(r.log), finalizedAfter)
                && votes == PrunedVotes(old(votes) - Delivered(r.log), finalizedAfter)
                && aggregated == PrunedVotes(old(aggregated) - Delivered(r.log), finalizedAfter)
    {
      if hash in blocks || imported(hash) {
        return Ignored;
      }
      if block.slot <= finalizedBefore {
        var ok := ForgetChildren(hash);
        return if ok then Ignored else ErasedEntry;
      }
      Insert(hash, block);
      if !imported(block.parent) {
        return Waits;
      }
      var log := Drain(true, hash, verdict);
      Prune(finalizedAfter);
      return Drained(log);
    }
  }

  /** An input on which the walk breaks: a block of a finalized slot arrives after one that waits for it. */
  method ErasedEntryExample() returns (r: Receipt)
    ensures r == ErasedEntry
  {
    var cache := new OrphanCache();
    var keep := (i: nat, d: Delivery) => true;
    var first := cache.ReceiveBlock(2, OrphanBlock(5, 1, 0), _ => false, 4, 4, keep);
    assert cache.blocks[2].parent == 1;
    r := cache.ReceiveBlock(1, OrphanBlock(3, 0, 0), _ => false, 4, 4, keep);
  }

  function KeepLater(votes: seq<PendingVote>, finalizedSlot: nat): seq<PendingVote> {
    if votes == [] then []
    else
      var rest := KeepLater(votes[1..], finalizedSlot);
      if votes[0].headSlot > finalizedSlot then [votes[0]] + rest else rest
  }

  function PrunedBlocks(blocks: Blocks, finalizedSlot: nat): Blocks {
    map h | h in blocks && blocks[h].slot > finalizedSlot :: blocks[h]
  }

  function PrunedVotes(cache: VoteCache, finalizedSlot: nat): VoteCache {
    map h | h in cache :: KeepLater(cache[h], finalizedSlot)
  }

  lemma {:induction false} KeptIsLater(votes: seq<PendingVote>, finalizedSlot: nat, i: nat)
    requires i < |KeepLater(votes, finalizedSlot)|
    ensures KeepLater(votes, finalizedSlot)[i].headSlot > finalizedSlot
  {
    if votes != [] {
      var kept := votes[0].headSlot > finalizedSlot;
      if !kept {
        KeptIsLater(votes[1..], finalizedSlot, i);
      } else if i > 0 {
        KeptIsLater(votes[1..], finalizedSlot, i - 1);
      }
    }
  }

  lemma PrunedIsLater(cache: VoteCache, finalizedSlot: nat)
    ensures VotesLater(PrunedVotes(cache, finalizedSlot), finalizedSlot)
  {
    forall h, i | h in cache && 0 <= i < |KeepLater(cache[h], finalizedSlot)|
      ensures KeepLater(cache[h], finalizedSlot)[i].headSlot > finalizedSlot
    {
      KeptIsLater(cache[h], finalizedSlot, i);
    }
  }

  lemma DropTwice<V>(m: map<Root, V>, a: set<Root>, b: set<Root>)
    ensures m - a - b == m - (a + b)
  {
  }

  lemma KidsAppend(kids: Queue, good: bool, c: Root)
    requires OnceEach(kids) && !InQueue(kids, c)
    ensures OnceEach(kids + [(good, c)])
    ensures forall x :: InQueue(kids + [(good, c)], x) <==> InQueue(kids, x) || x == c
  {
    var more := kids + [(good, c)];
    assert more[|kids|].1 == c;
    forall x | InQueue(kids, x) ensures InQueue(more, x) {
      var i :| 0 <= i < |kids| && kids[i].1 == x;
      assert more[i].1 == x;
    }
  }

  lemma DrainedIsClosed(blocks: Blocks, log: seq<Delivery>)
    requires Covers(blocks - Delivered(log), log, [])
    ensures Closed(blocks, Delivered(log))
  {
    assert forall h :: !InQueue([], h);
    assert forall h | h in blocks && h !in Delivered(log) :: h in blocks - Delivered(log);
  }
}
