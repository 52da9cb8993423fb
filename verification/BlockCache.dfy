/** The cache of recent blocks (BlockCache of libblockchain/BlockChainImp.cpp). */
module BlockCache {
  import opened Prelude
  import opened Blocks

  const CACHE_SIZE: nat := 10

  /** Blocks by hash, where None is a null pointer, and the queue of hashes. A hash may be queued more than once. */
  datatype Content = Content(entries: map<BlockHash, Option<Block>>, queue: seq<BlockHash>)

  const EMPTY: Content := Content(map[], [])

  /** No pointer is null, every block is under its own hash, every key is in the queue, and there is at most one
      more than the cache size. */
  ghost predicate CacheOk(c: Content) {
    && (forall h :: h in c.entries ==> h in c.queue && c.entries[h].Some? && c.entries[h].value.hash == h)
    && |c.entries| <= CACHE_SIZE + 1
  }

  predicate Full(c: Content) {
    |c.entries| > CACHE_SIZE
  }

  /** What is left to add a block to: a full cache gives up the oldest queued hash, or everything when that hash has
      no entry. */
  function Evicted(c: Content): Content
    requires Full(c) ==> c.queue != []
  {
    if !Full(c) then c
    else if c.queue[0] in c.entries then Content(c.entries - {c.queue[0]}, c.queue[1..])
    else EMPTY
  }

  /** The cache after a block has been added. */
  function Entered(c: Content, block: Block): Content
    requires Full(c) ==> c.queue != []
  {
    var kept := Evicted(c);
    Content(if block.hash in kept.entries then kept.entries else kept.entries[block.hash := Some(block)],
            kept.queue + [block.hash])
  }

  lemma FullHasQueue(c: Content)
    requires CacheOk(c)
    ensures Full(c) ==> c.queue != []
  {
    if Full(c) {
      assert c.entries != map[];
      var h :| h in c.entries;
      assert h in c.queue;
    }
  }

  lemma Fewer(entries: map<BlockHash, Option<Block>>, h: BlockHash)
    ensures |entries - {h}| == if h in entries then |entries| - 1 else |entries|
  {
    assert (entries - {h}).Keys == entries.Keys - {h};
    if h !in entries { assert entries - {h} == entries; }
  }

  lemma EnteredKeeps(c: Content, block: Block)
    requires CacheOk(c)
    ensures (Full(c) ==> c.queue != []) && CacheOk(Entered(c, block)) && block.hash in Entered(c, block).entries
  {
    FullHasQueue(c);
    var kept := Evicted(c);
    if Full(c) {
      Fewer(c.entries, c.queue[0]);
      assert forall h :: h in kept.entries ==> h in c.entries && h in kept.queue;
    }
    assert |kept.entries[block.hash := Some(block)]| <= |kept.entries| + 1;
  }

  class BlockCache {
    var cache: map<BlockHash, Option<Block>>
    var fifo: seq<BlockHash>

    function Contents(): Content
      reads this
    {
      Content(cache, fifo)
    }

    ghost predicate Valid()
      reads this
    {
      CacheOk(Contents())
    }

    constructor ()
      ensures Valid() && Contents() == EMPTY
    {
      cache, fifo := map[], [];
    }

    /** add. A null pointer that operator[] puts in for the oldest hash is erased again at once. */
    method Add(block: Block) returns (r: Block)
      requires Valid()
      modifies this
      ensures Valid() && r == block && (Full(old(Contents())) ==> old(fifo) != [])
      ensures Contents() == Entered(old(Contents()), block)
    {
      EnteredKeeps(Contents(), block);
      if |cache| > CACHE_SIZE {
        var firstHash := fifo[0];
        fifo := fifo[1..];
        if firstHash !in cache { cache := cache[firstHash := None]; }
        Fewer(cache, firstHash);
        assert firstHash !in old(cache) ==> cache - {firstHash} == old(cache);
        cache := cache - {firstHash};
        if |cache| > CACHE_SIZE { cache, fifo := map[], []; }
      }
      if block.hash !in cache { cache := cache[block.hash := Some(block)]; }
      fifo := fifo + [block.hash];
      r := block;
    }

    /** get. A hit is never a null pointer. */
    method Get(h: BlockHash) returns (r: Option<Block>)
      requires Valid()
      ensures r.Some? <==> h in cache
      ensures r.Some? ==> r == cache[h] && r.value.hash == h
    {
      if h !in cache { return None; }
      return cache[h];
    }
  }

  /** The cache after the blocks have been added one after the other. */
  function Added(c: Content, blocks: seq<Block>): (r: Content)
    requires CacheOk(c)
    ensures CacheOk(r)
  {
    if blocks == [] then c
    else
      var front, last := Added(c, blocks[..|blocks| - 1]), blocks[|blocks| - 1];
      EnteredKeeps(front, last);
      Entered(front, last)
  }

  lemma AddedOne(c: Content, front: seq<Block>, b: Block)
    requires CacheOk(c)
    ensures Full(Added(c, front)) ==> Added(c, front).queue != []
    ensures Added(c, front + [b]) == Entered(Added(c, front), b)
  {
    assert (front + [b])[..|front|] == front;
  }

  /** A hit is a block that was added under its hash, or was there before; the last block is a hit. */
  lemma {:induction false} HitWasAdded(c: Content, blocks: seq<Block>, h: BlockHash)
    requires CacheOk(c)
    ensures var r := Added(c, blocks).entries;
      && (h in r ==> (
            || (r[h].Some? && r[h].value.hash == h && r[h].value in blocks)
            || (h in c.entries && r[h] == c.entries[h])))
      && (blocks != [] ==> blocks[|blocks| - 1].hash in r)
  {
    if blocks == [] {
    } else {
      HitWasAdded(c, blocks[..|blocks| - 1], h);
      EnteredKeeps(Added(c, blocks[..|blocks| - 1]), blocks[|blocks| - 1]);
    }
  }

  /** Queued, but not cached. */
  predicate Orphan(c: Content, h: BlockHash) {
    h in c.queue && h !in c.entries
  }

  /** A cache is cleared exactly when it is full and its oldest queued hash is an orphan. */
  lemma ClearsAtOrphan(c: Content, block: Block)
    requires CacheOk(c) && Full(c)
    ensures c.queue != [] && (Orphan(c, c.queue[0]) <==> Evicted(c) == EMPTY)
    ensures Orphan(c, c.queue[0]) ==> Entered(c, block) == Content(map[block.hash := Some(block)], [block.hash])
  {
    FullHasQueue(c);
    Fewer(c.entries, c.queue[0]);
  }

  /** A hash becomes an orphan exactly when its entry is evicted while it is queued again, and it stays one until it is
      added, or until the cache is cleared. */
  lemma Orphans(c: Content, block: Block, h: BlockHash)
    requires CacheOk(c)
    ensures (Full(c) ==> c.queue != []) && (Orphan(Entered(c, block), h) <==>
      && !(Full(c) && Orphan(c, c.queue[0])) && h != block.hash
      && (Orphan(c, h) || (Full(c) && h == c.queue[0] && h in c.queue[1..])))
  {
    FullHasQueue(c);
    var kept := Evicted(c);
    if Full(c) {
      ClearsAtOrphan(c, block);
      assert c.queue == [c.queue[0]] + c.queue[1..];
      assert Orphan(kept, h) <==>
        !Orphan(c, c.queue[0]) && (Orphan(c, h) || (h == c.queue[0] && h in c.queue[1..]));
    }
    assert h in Entered(c, block).queue <==> h in kept.queue || h == block.hash;
  }

  /** The cache has just these blocks, in this order. */
  ghost predicate Holds(c: Content, blocks: seq<Block>) {
    && |c.entries| == |c.queue| == |blocks|
    && (forall i :: 0 <= i < |blocks| ==> c.queue[i] == blocks[i].hash)
    && forall i :: 0 <= i < |blocks| ==> blocks[i].hash in c.entries && c.entries[blocks[i].hash] == Some(blocks[i])
  }

  ghost predicate DistinctHashes(blocks: seq<Block>) {
    forall i, j :: 0 <= i < j < |blocks| ==> blocks[i].hash != blocks[j].hash
  }

  lemma HoldsRest(c: Content, blocks: seq<Block>)
    requires CacheOk(c) && Holds(c, blocks) && DistinctHashes(blocks) && Full(c)
    ensures c.queue != [] && Holds(Evicted(c), blocks[1..]) && CacheOk(Evicted(c)) && !Full(Evicted(c))
  {
    var kept, rest := Evicted(c), blocks[1..];
    assert kept == Content(c.entries - {c.queue[0]}, c.queue[1..]);
    Fewer(c.entries, c.queue[0]);
    forall i | 0 <= i < |rest|
      ensures kept.queue[i] == rest[i].hash && rest[i].hash in kept.entries
      ensures kept.entries[rest[i].hash] == Some(rest[i])
    {
      assert rest[i] == blocks[i + 1] && blocks[0].hash != blocks[i + 1].hash;
    }
    RestIsOk(c);
  }

  lemma RestIsOk(c: Content)
    requires CacheOk(c) && Full(c) && c.queue != []
    ensures CacheOk(Evicted(c))
  {
    var kept := Evicted(c);
    assert forall h :: h in kept.entries ==> h in c.entries && h in kept.queue;
  }

  predicate HashIn(blocks: seq<Block>, h: BlockHash) {
    exists k :: 0 <= k < |blocks| && blocks[k].hash == h
  }

  lemma KeyIsHash(c: Content, blocks: seq<Block>, h: BlockHash)
    requires CacheOk(c) && Holds(c, blocks)
    ensures h in c.entries <==> HashIn(blocks, h)
  {
    if h in c.entries {
      assert h in c.queue;
      var k :| 0 <= k < |c.queue| && c.queue[k] == h;
      assert blocks[k].hash == h;
    }
  }

  /** Adding to a cache that is not full. */
  lemma HoldsMore(c: Content, blocks: seq<Block>, b: Block)
    requires CacheOk(c) && Holds(c, blocks) && !Full(c)
    ensures if HashIn(blocks, b.hash) then |Entered(c, b).entries| == |blocks| else Holds(Entered(c, b), blocks + [b])
  {
    KeyIsHash(c, blocks, b.hash);
  }

  /** The last eleven blocks, or all. */
  function Recent(blocks: seq<Block>): seq<Block> {
    if |blocks| <= CACHE_SIZE + 1 then blocks else blocks[|blocks| - CACHE_SIZE - 1..]
  }

  /** The last ten blocks, or all: those that the next one finds in the cache. */
  function Kept(blocks: seq<Block>): seq<Block> {
    if |blocks| <= CACHE_SIZE then blocks else blocks[|blocks| - CACHE_SIZE..]
  }

  /** No hash comes twice within eleven blocks. */
  ghost predicate SpreadOut(blocks: seq<Block>) {
    forall i, j :: 0 <= i < j < |blocks| && j - i <= CACHE_SIZE ==> blocks[i].hash != blocks[j].hash
  }

  lemma RecentIsDistinct(blocks: seq<Block>)
    requires SpreadOut(blocks)
    ensures DistinctHashes(Recent(blocks))
  {
    var r, n := Recent(blocks), |blocks| - |Recent(blocks)|;
    forall i, j | 0 <= i < j < |r| ensures r[i].hash != r[j].hash {
      assert r[i] == blocks[n + i] && r[j] == blocks[n + j];
    }
  }

  lemma RecentGrows(front: seq<Block>, b: Block)
    ensures Recent(front + [b]) == Kept(front) + [b]
    ensures Kept(front) == if |Recent(front)| <= CACHE_SIZE then Recent(front) else Recent(front)[1..]
  {
  }

  lemma SpreadGrows(front: seq<Block>, b: Block)
    requires SpreadOut(front)
    ensures SpreadOut(front + [b]) <==> !HashIn(Kept(front), b.hash)
  {
    var blocks, kept := front + [b], Kept(front);
    var n := |front| - |kept|;
    assert forall k :: 0 <= k < |kept| ==> kept[k] == blocks[n + k];
    if !HashIn(kept, b.hash) {
      forall i, j | 0 <= i < j < |blocks| && j - i <= CACHE_SIZE ensures blocks[i].hash != blocks[j].hash {
        if j < |front| {
          assert front[i].hash != front[j].hash;
        } else {
          assert kept[i - n] == blocks[i];
        }
      }
    }
    if SpreadOut(blocks) {
      forall k | 0 <= k < |kept| ensures kept[k].hash != b.hash {
        assert blocks[n + k].hash != blocks[|front|].hash;
      }
    }
  }

  lemma KeptIsHeld(c: Content, front: seq<Block>)
    requires CacheOk(c) && SpreadOut(front) && Holds(c, Recent(front))
    ensures Full(c) ==> c.queue != []
    ensures CacheOk(Evicted(c)) && Holds(Evicted(c), Kept(front)) && !Full(Evicted(c))
  {
    if Full(c) {
      RecentIsDistinct(front);
      HoldsRest(c, Recent(front));
      assert Recent(front)[1..] == Kept(front);
    }
  }

  /** One more block, after some that are spread out. */
  lemma EnteredRecent(c: Content, front: seq<Block>, b: Block)
    requires CacheOk(c) && SpreadOut(front) && Holds(c, Recent(front))
    ensures Full(c) ==> c.queue != []
    ensures if SpreadOut(front + [b]) then Holds(Entered(c, b), Recent(front + [b]))
            else |Entered(c, b).entries| == |Kept(front)|
  {
    KeptIsHeld(c, front);
    RecentGrows(front, b);
    SpreadGrows(front, b);
    HoldsMore(Evicted(c), Kept(front), b);
  }

  /** As long as no hash comes twice within eleven blocks, the cache is the last eleven blocks. */
  lemma {:induction false} SpreadIsRecent(blocks: seq<Block>)
    requires SpreadOut(blocks)
    ensures Holds(Added(EMPTY, blocks), Recent(blocks))
    decreases |blocks|, 0
  {
    if blocks != [] {
      var front, b := blocks[..|blocks| - 1], blocks[|blocks| - 1];
      assert front + [b] == blocks;
      SpreadNext(front, b);
    }
  }

  lemma {:induction false} SpreadNext(front: seq<Block>, b: Block)
    requires SpreadOut(front + [b])
    ensures Holds(Added(EMPTY, front + [b]), Recent(front + [b]))
    decreases |front|, 1
  {
    FrontIsSpread(front, b);
    SpreadIsRecent(front);
    AddedOne(EMPTY, front, b);
    EnteredRecent(Added(EMPTY, front), front, b);
  }

  /** How many blocks there should be after n additions. */
  function Filled(n: nat): nat {
    if n <= CACHE_SIZE then n else CACHE_SIZE + 1
  }

  /** After the first m blocks. */
  predicate FilledAt(blocks: seq<Block>, m: nat)
    requires m <= |blocks|
  {
    |Added(EMPTY, blocks[..m]).entries| == Filled(m)
  }

  ghost predicate AlwaysFilled(blocks: seq<Block>) {
    forall m :: 0 <= m <= |blocks| ==> FilledAt(blocks, m)
  }

  lemma SameFilled(front: seq<Block>, b: Block, m: nat)
    requires m <= |front|
    ensures FilledAt(front + [b], m) <==> FilledAt(front, m)
  {
    assert (front + [b])[..m] == front[..m];
  }

  lemma AllFilled(blocks: seq<Block>)
    ensures FilledAt(blocks, |blocks|) <==> |Added(EMPTY, blocks).entries| == Filled(|blocks|)
  {
    assert blocks[..|blocks|] == blocks;
  }

  lemma AlwaysFilledGrows(front: seq<Block>, b: Block)
    ensures AlwaysFilled(front + [b]) <==> AlwaysFilled(front) && FilledAt(front + [b], |front| + 1)
  {
    forall m | 0 <= m <= |front| ensures FilledAt(front + [b], m) <==> FilledAt(front, m) { SameFilled(front, b, m); }
  }

  /** The cache always has the blocks it has room for exactly when no hash comes twice within eleven blocks. */
  lemma {:induction false} FilledExactlyWhenSpread(blocks: seq<Block>)
    ensures AlwaysFilled(blocks) <==> SpreadOut(blocks)
  {
    if blocks == [] {
      assert blocks[..0] == [];
    } else {
      var front, b := blocks[..|blocks| - 1], blocks[|blocks| - 1];
      assert front + [b] == blocks;
      FilledExactlyWhenSpread(front);
      AlwaysFilledGrows(front, b);
      FilledNext(front, b);
    }
  }

  lemma FilledNext(front: seq<Block>, b: Block)
    ensures SpreadOut(front + [b]) <==>
            SpreadOut(front) && FilledAt(front + [b], |front| + 1)
  {
    AllFilled(front + [b]);
    if SpreadOut(front) {
      AddedOne(EMPTY, front, b);
      SpreadIsRecent(front);
      EnteredRecent(Added(EMPTY, front), front, b);
    } else if SpreadOut(front + [b]) {
      FrontIsSpread(front, b);
    }
  }

  lemma FrontIsSpread(front: seq<Block>, b: Block)
    requires SpreadOut(front + [b])
    ensures SpreadOut(front)
  {
    forall i, j | 0 <= i < j < |front| && j - i <= CACHE_SIZE ensures front[i].hash != front[j].hash {
      assert (front + [b])[i].hash != (front + [b])[j].hash;
    }
  }

  /** The same cache with one hash before all others in the queue. */
  function Pushed(h: BlockHash, c: Content): Content {
    Content(c.entries, [h] + c.queue)
  }

  lemma PushedEntered(h: BlockHash, c: Content, b: Block)
    requires !Full(c)
    ensures Entered(Pushed(h, c), b) == Pushed(h, Entered(c, b))
  {
    assert [h] + c.queue + [b.hash] == [h] + (c.queue + [b.hash]);
  }

  /** A full cache whose oldest hash is queued twice. */
  lemma PushedEvicted(h: BlockHash, c: Content, b: Block)
    requires CacheOk(c) && Full(c) && c.queue != [] && h == c.queue[0] && h in c.entries
    ensures Entered(Pushed(h, c), b) == Pushed(h, Entered(c, b))
    ensures h != b.hash ==> Orphan(Pushed(h, Entered(c, b)), h)
  {
    Fewer(c.entries, h);
    assert [h] + c.queue[1..] == c.queue;
    assert Evicted(Pushed(h, c)) == Pushed(h, Evicted(c));
    PushedEntered(h, Evicted(c), b);
  }

  lemma PartIsSpread(blocks: seq<Block>, n: nat)
    requires DistinctHashes(blocks) && n <= |blocks|
    ensures SpreadOut(blocks[0..n])
  {
    var part := blocks[0..n];
    assert forall i :: 0 <= i < n ==> part[i] == blocks[i];
  }

  /** One more block, after the others and after the others with x before them. */
  lemma PushedNext(x: Block, front: seq<Block>, b: Block)
    requires Added(EMPTY, [x] + front) == Pushed(x.hash, Added(EMPTY, front))
    requires var c := Added(EMPTY, front);
      Full(c) ==> c.queue != [] && x.hash == c.queue[0] && x.hash in c.entries && x.hash != b.hash
    ensures Added(EMPTY, [x] + (front + [b])) == Pushed(x.hash, Added(EMPTY, front + [b]))
    ensures Full(Added(EMPTY, front)) ==> Orphan(Added(EMPTY, [x] + (front + [b])), x.hash)
  {
    Regroup([x], front, [b]);
    AddedOne(EMPTY, [x] + front, b);
    AddedOne(EMPTY, front, b);
    PushedAdded(x.hash, Added(EMPTY, front), b);
  }

  lemma OneLonger<T>(s: seq<T>, k: nat, n: nat)
    requires k < |s| && n == k + 1
    ensures s[0..k] + [s[k]] == s[0..n]
  {
  }

  lemma Regroup<T>(a: seq<T>, b: seq<T>, c: seq<T>)
    ensures (a + b) + c == a + (b + c)
  {
  }

  lemma PushedAdded(h: BlockHash, c: Content, b: Block)
    requires CacheOk(c) && (Full(c) ==> c.queue != [] && h == c.queue[0] && h in c.entries && h != b.hash)
    ensures Entered(Pushed(h, c), b) == Pushed(h, Entered(c, b))
    ensures Full(c) ==> Orphan(Entered(Pushed(h, c), b), h)
  {
    if Full(c) { PushedEvicted(h, c, b); } else { PushedEntered(h, c, b); }
  }

  /** The first block again, before the others. */
  lemma {:induction false} AddedTwice(blocks: seq<Block>, n: nat)
    requires DistinctHashes(blocks) && 0 < n <= CACHE_SIZE + 1 && n <= |blocks|
    ensures Added(EMPTY, [blocks[0]] + blocks[0..n]) == Pushed(blocks[0].hash, Added(EMPTY, blocks[0..n]))
  {
    var front, b := blocks[0..n - 1], blocks[n - 1];
    assert front + [b] == blocks[0..n];
    if n == 1 {
      FirstTwice(b);
    } else {
      AddedTwice(blocks, n - 1);
      PartIsSpread(blocks, n - 1);
      SpreadIsRecent(front);
      PushedNext(blocks[0], front, b);
    }
  }

  lemma FirstTwice(b: Block)
    ensures Added(EMPTY, [b] + ([] + [b])) == Pushed(b.hash, Added(EMPTY, [] + [b]))
  {
    AddedOne(EMPTY, [], b);
    assert [b] + ([] + [b]) == ([] + [b]) + [b];
    AddedOne(EMPTY, [] + [b], b);
  }

  /** A cache that is cleared. After the blocks 1, 1, 2, ..., 11 the block 12 evicts block 1 alone; the block 13 then
      finds the hash of block 1 in the queue again, with no entry, and leaves nothing but itself. */
  lemma ClearedExample(blocks: seq<Block>)
    requires DistinctHashes(blocks) && |blocks| == 13
    ensures forall h :: h in Added(EMPTY, [blocks[0]] + blocks[0..12]).entries <==> HashIn(blocks[1..12], h)
    ensures Added(EMPTY, [blocks[0]] + blocks[0..13]) ==
            Content(map[blocks[12].hash := Some(blocks[12])], [blocks[12].hash])
  {
    var b := [blocks[0]];
    assert b + blocks[0..12] + [blocks[12]] == b + blocks[0..13];
    AddedOne(EMPTY, b + blocks[0..12], blocks[12]);
    Twelve(blocks);
    WithoutRepetition(blocks);
    ClearsAtOrphan(Added(EMPTY, b + blocks[0..12]), blocks[12]);
  }

  lemma Twelve(blocks: seq<Block>)
    requires DistinctHashes(blocks) && |blocks| == 13
    ensures Added(EMPTY, [blocks[0]] + blocks[0..12]) == Pushed(blocks[0].hash, Added(EMPTY, blocks[0..12]))
    ensures Orphan(Added(EMPTY, [blocks[0]] + blocks[0..12]), blocks[0].hash)
  {
    OneLonger(blocks, 11, 12);
    AddedTwice(blocks, 11);
    WithoutRepetition(blocks);
    PushedNext(blocks[0], blocks[0..11], blocks[11]);
  }

  /** The first eleven blocks, and the first twelve. */
  lemma WithoutRepetition(blocks: seq<Block>)
    requires DistinctHashes(blocks) && |blocks| == 13
    ensures var c := Added(EMPTY, blocks[0..11]);
      Full(c) && c.queue != [] && c.queue[0] == blocks[0].hash && blocks[0].hash in c.entries
    ensures var e := Added(EMPTY, blocks[0..12]);
      Full(e) && forall h :: h in e.entries <==> HashIn(blocks[1..12], h)
  {
    PartIsSpread(blocks, 11);
    SpreadIsRecent(blocks[0..11]);
    assert blocks[0..11][0] == blocks[0];
    PartIsSpread(blocks, 12);
    SpreadIsRecent(blocks[0..12]);
    assert Recent(blocks[0..12]) == blocks[1..12];
    forall h ensures h in Added(EMPTY, blocks[0..12]).entries <==> HashIn(blocks[1..12], h) {
      KeyIsHash(Added(EMPTY, blocks[0..12]), blocks[1..12], h);
    }
  }
}
