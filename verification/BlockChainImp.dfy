/** commitBlock, getBlock and getTxByHash of libblockchain/BlockChainImp.cpp as the code of one call: the object with
    the cached number and the block cache, and the context whose tables the writers fill. */
module BlockChainImp {
  import opened Prelude
  import opened Blocks
  import opened BlockCache
  import opened Chain

  /** The tables that a block brings along: the stored ones with what the writers have changed. */
  class ExecutiveContext {
    var number: int
    var total: Option<int>
    var failed: Option<int>
    var hashes: map<int, BlockHash>
    var blocks: map<BlockHash, Block>
    var txs: map<TxHash, (int, nat)>

    constructor (s: Tables)
      ensures Contents() == s
    {
      number, total, failed, hashes, blocks, txs := s.number, s.total, s.failed, s.hashes, s.blocks, s.txs;
    }

    function Contents(): Tables
      reads this
    {
      Tables(number, total, failed, hashes, blocks, txs)
    }

    method WriteNumber(b: Block)
      modifies `number
      ensures number == b.number
    {
      number := b.number;
    }

    /** writeTotalTransactionCount: both counts grow, or begin. */
    method WriteTotalTransactionCount(b: Block)
      modifies `total, `failed
      ensures total == Some(Count(old(total)) + |b.txs|) && failed == Some(Count(old(failed)) + Failures(b.failed))
    {
      if total.Some? {
        var currentCount := total.value;
        currentCount := currentCount + |b.txs|;
        total := Some(currentCount);
      } else {
        total := Some(|b.txs|);
      }
      var failedTransactions := CountFailures(b.failed);
      if failed.Some? {
        var currentCount := failed.value;
        currentCount := currentCount + failedTransactions;
        failed := Some(currentCount);
      } else {
        failed := Some(failedTransactions);
      }
    }

    /** The loop over the receipts. */
    static method CountFailures(receipts: seq<bool>) returns (n: nat)
      ensures n == Failures(receipts)
    {
      n := 0;
      for i := 0 to |receipts|
        invariant n == Failures(receipts[..i])
      {
        assert receipts[..i + 1][..i] == receipts[..i];
        if receipts[i] { n := n + 1; }
      }
      assert receipts[..|receipts|] == receipts;
    }

    /** writeTxToBlock: the transactions are entered in any order. */
    method WriteTxToBlock(b: Block)
      modifies `txs
      ensures Enters(old(txs), b, txs)
    {
      var todo := Indices(|b.txs|);
      while todo != {}
        invariant todo <= Indices(|b.txs|)
        invariant forall k :: 0 <= k < |b.txs| && k !in todo ==> b.txs[k].hash in txs
        invariant forall h :: h in old(txs) ==> h in txs
        invariant forall h :: h in txs ==> PlaceIn(b, h, txs[h]) || (h in old(txs) && txs[h] == old(txs)[h])
      {
        var i :| i in todo;
        txs := txs[b.txs[i].hash := (b.number, i)];
        todo := todo - {i};
      }
    }

    method WriteNumber2Hash(b: Block)
      modifies `hashes
      ensures hashes == old(hashes)[b.number := b.hash]
    {
      hashes := hashes[b.number := b.hash];
    }

    method WriteHash2Block(b: Block)
      modifies `blocks
      ensures blocks == old(blocks)[b.hash := b]
    {
      blocks := blocks[b.hash := b];
    }
  }

  datatype Exception = OpenSysTableFailed

  /** What a call of commitBlock that nothing interrupts does to the tables, and what it returns or throws. */
  function Committing(s: Tables, b: Block, c: Choice): (Tables, Result<CommitResult, Exception>) {
    if b.number != s.number + 1 then (s, Ok(ERROR_NUMBER))
    else if !(s.number in s.hashes && s.hashes[s.number] == b.parentHash) then (s, Ok(ERROR_PARENT_HASH))
    else if c.tableFails then (s, Err(OpenSysTableFailed))
    else if c.dbFails then (s, Ok(ERROR_COMMITTING))
    else (Written(s, b, c.txs), Ok(OK))
  }

  /** The same for some order of the inserts. */
  ghost predicate Commits(s: Tables, b: Block, tableFails: bool, dbFails: bool,
                          t: Tables, r: Result<CommitResult, Exception>) {
    exists txs :: Enters(s.txs, b, txs) && (t, r) == Committing(s, b, Choice(tableFails, dbFails, txs))
  }

  class BlockChain {
    var storage: Tables
    var blockNumber: int
    const blockCache: BlockCache

    /** What number() returns. */
    function Height(): int
      reads this
    {
      if blockNumber == -1 then storage.number else blockNumber
    }

    /** The stored chain is right; number() is its height or, between dbCommit and the update of the number, one less;
        and cached blocks are stored ones. */
    ghost predicate Valid()
      reads this, blockCache
    {
      && ChainOk(storage) && blockNumber >= -1 && storage.number - 1 <= Height() <= storage.number
      && blockCache.Valid()
      && forall h :: h in blockCache.cache ==> h in storage.blocks && blockCache.cache[h] == Some(storage.blocks[h])
    }

    constructor (s: Tables)
      requires ChainOk(s)
      ensures Valid() && storage == s && Height() == storage.number && fresh(blockCache)
    {
      storage, blockNumber := s, -1;
      blockCache := new BlockCache();
    }

    method Number() returns (n: int)
      requires Valid()
      modifies `blockNumber
      ensures Valid() && n == blockNumber == old(Height())
    {
      if blockNumber == -1 { blockNumber := storage.number; }
      n := blockNumber;
    }

    /** numberHash: the hash of the block of that height, for exactly the heights of the chain. */
    method NumberHash(i: int) returns (h: Option<BlockHash>)
      requires Valid()
      ensures h.Some? <==> 0 <= i <= storage.number
      ensures h.Some? ==> h.value in storage.blocks && h.value == BlockAt(storage, i).hash
    {
      assert 0 <= i <= storage.number ==> Stored(storage, i);
      h := if i in storage.hashes then Some(storage.hashes[i]) else None;
    }

    method IsBlockShouldCommit(n: int) returns (ok: bool)
      requires Valid()
      modifies `blockNumber
      ensures Valid() && Height() == old(Height()) && (ok <==> n == Height() + 1)
    {
      var number := Number();
      ok := n == number + 1;
    }

    /** commitBlock, when no other call is between dbCommit and the update of the number. Only a block that continues
        the chain is stored, and the chain stays one. */
    method CommitBlock(b: Block, tableFails: bool, dbFails: bool) returns (r: Result<CommitResult, Exception>)
      requires Valid() && Height() == storage.number && (b.hash in storage.blocks ==> storage.blocks[b.hash] == b)
      modifies this, blockCache
      ensures Valid() && Height() == storage.number && Extends(old(storage), storage)
      ensures Commits(old(storage), b, tableFails, dbFails, storage, r)
      ensures r == Ok(ERROR_NUMBER) <==> b.number != old(storage).number + 1
      ensures r == Ok(ERROR_PARENT_HASH) <==>
        b.number == old(storage).number + 1 && b.parentHash != BlockAt(old(storage), old(storage).number).hash
      ensures r == Err(OpenSysTableFailed) || r == Ok(ERROR_COMMITTING) ==> tableFails || dbFails
      ensures if r == Ok(OK) then
          && storage.number == old(storage).number + 1 == b.number && BlockAt(storage, b.number) == b
          && (Full(old(blockCache.Contents())) ==> old(blockCache.fifo) != [])
          && blockCache.Contents() == Entered(old(blockCache.Contents()), b)
        else
          storage == old(storage) && blockCache.Contents() == old(blockCache.Contents())
    {
      ghost var possible := AnyPlaces(storage.txs, b);
      var should := IsBlockShouldCommit(b.number);
      if !should { return Ok(ERROR_NUMBER); }
      var n := Number();
      var parentHash := NumberHash(n);
      assert Stored(storage, storage.number) && parentHash.value == storage.hashes[n];
      if parentHash != Some(b.parentHash) { return Ok(ERROR_PARENT_HASH); }
      should := IsBlockShouldCommit(b.number);
      if !should { return Ok(ERROR_PARENT_HASH); }
      if tableFails { return Err(OpenSysTableFailed); }
      r := WriteAndCommit(b, dbFails);
      if r == Ok(OK) { Remember(b); }
    }

    /** The writers, dbCommit, and the new block number. */
    method WriteAndCommit(b: Block, dbFails: bool) returns (r: Result<CommitResult, Exception>)
      requires Valid() && Height() == storage.number && Continues(storage, b)
      modifies this
      ensures Valid() && Height() == storage.number
      ensures Commits(old(storage), b, false, dbFails, storage, r)
      ensures Extends(old(storage), storage)
      ensures if dbFails then storage == old(storage) else BlockAt(storage, b.number) == b
    {
      var context := Write(b);
      WrittenChain(storage, b, context.txs);
      assert Committing(storage, b, Choice(false, false, context.txs)) == (context, Ok(OK));
      assert Committing(storage, b, Choice(false, true, context.txs)) == (storage, Ok(ERROR_COMMITTING));
      if dbFails { return Ok(ERROR_COMMITTING); }
      storage := context;
      blockNumber := b.number;
      r := Ok(OK);
    }

    /** The writers. */
    method Write(b: Block) returns (s: Tables)
      ensures Enters(storage.txs, b, s.txs) && s == Written(storage, b, s.txs)
    {
      var context := new ExecutiveContext(storage);
      context.WriteHash2Block(b);
      context.WriteNumber2Hash(b);
      context.WriteNumber(b);
      context.WriteTotalTransactionCount(b);
      context.WriteTxToBlock(b);
      s := context.Contents();
    }

    /** A stored block goes into the cache. */
    method Remember(b: Block)
      requires Valid() && b.hash in storage.blocks && storage.blocks[b.hash] == b
      modifies blockCache
      ensures Valid() && b.hash in blockCache.cache && (Full(old(blockCache.Contents())) ==> old(blockCache.fifo) != [])
      ensures blockCache.Contents() == Entered(old(blockCache.Contents()), b)
    {
      EnteredKeeps(blockCache.Contents(), b);
      var r := blockCache.Add(b);
    }

    /** getBlock for a hash: the stored block, whether it is cached or not, and it is cached from then on. */
    method GetBlock(h: BlockHash) returns (r: Option<Block>)
      requires Valid()
      modifies blockCache
      ensures Valid() && r == if h in storage.blocks then Some(storage.blocks[h]) else None
      ensures r.Some? ==> h in blockCache.cache
    {
      r := blockCache.Get(h);
      if r.None? && h in storage.blocks {
        Remember(storage.blocks[h]);
        r := Some(storage.blocks[h]);
      }
    }

    /** getBlock for a height. */
    method GetBlockByNumber(i: int) returns (r: Option<Block>)
      requires Valid()
      modifies this, blockCache
      ensures Valid() && storage == old(storage) && Height() == old(Height())
      ensures r.Some? <==> 0 <= i <= Height()
      ensures r.Some? ==> Stored(storage, i) && r.value == BlockAt(storage, i)
    {
      var n := Number();
      if i > n { return None; }
      var h := NumberHash(i);
      if h.None? { return None; }
      assert Stored(storage, i);
      r := GetBlock(h.value);
    }

    /** getTxByHash: nothing of a block above number() is found, even if it is stored. */
    method TxByHash(h: TxHash) returns (r: Option<Tx>)
      requires Valid()
      modifies this, blockCache
      ensures Valid() && storage == old(storage) && Height() == old(Height()) && r == TxWithin(storage, Height(), h)
    {
      r := None;
      if h in storage.txs {
        var (i, k) := storage.txs[h];
        var block := GetBlockByNumber(i);
        if block.Some? && k < |block.value.txs| { r := Some(block.value.txs[k]); }
      }
    }
  }

  /** There is always some order of the inserts. */
  lemma {:induction false} SomePlaces(table: map<TxHash, (int, nat)>, b: Block, n: nat)
    returns (m: map<TxHash, (int, nat)>)
    requires n <= |b.txs|
    ensures forall k :: 0 <= k < n ==> b.txs[k].hash in m
    ensures forall h :: h in table ==> h in m
    ensures forall h :: h in m ==> PlaceIn(b, h, m[h]) || (h in table && m[h] == table[h])
  {
    m := table;
    if n == 0 {
    } else {
      m := SomePlaces(table, b, n - 1);
      m := m[b.txs[n - 1].hash := (b.number, n - 1)];
    }
  }

  lemma AnyPlaces(table: map<TxHash, (int, nat)>, b: Block) returns (m: map<TxHash, (int, nat)>)
    ensures Enters(table, b, m)
  {
    m := SomePlaces(table, b, |b.txs|);
  }

  /** How a call ends in the state machine. */
  function Ended(r: Result<CommitResult, Exception>): Call {
    match r
    case Ok(result) => Returned(result)
    case Err(_) => Threw
  }

  /** Call t makes so many steps, and no other call does. */
  ghost function Alone(s: State, t: nat, b: Block, c: Choice, steps: nat): (r: State)
    requires t < |s.calls| && CacheOk(s.recent)
    ensures |r.calls| == |s.calls| && CacheOk(r.recent)
  {
    if steps == 0 then s else Step(Alone(s, t, b, c, steps - 1), t, b, c)
  }

  /** Run alone, the call comes to x. */
  ghost predicate Reaches(s: State, t: nat, b: Block, c: Choice, x: State)
    requires t < |s.calls| && CacheOk(s.recent)
  {
    exists k: nat :: Alone(s, t, b, c, k) == x
  }

  lemma NextStep(s: State, t: nat, b: Block, c: Choice, x: State, y: State)
    requires t < |s.calls| && CacheOk(s.recent) && Reaches(s, t, b, c, x)
    requires t < |x.calls| && CacheOk(x.recent) && Step(x, t, b, c) == y
    ensures Reaches(s, t, b, c, y)
  {
    var k: nat :| Alone(s, t, b, c, k) == x;
    var n: nat := k + 1;
    assert Alone(s, t, b, c, n) == y;
  }

  /** The state s with call t at d. */
  function At(s: State, t: nat, tables: Tables, cached: int, lock: Option<nat>, d: Call): State
    requires t < |s.calls|
  {
    State(tables, cached, lock, s.recent, s.calls[t := d], s.readers, s.lookups)
  }

  /** The next step of the call takes it from d to e. */
  lemma NextAt(s: State, t: nat, b: Block, c: Choice, x: State, d: Call, y: State, e: Call)
    requires t < |s.calls| && CacheOk(s.recent) && Reaches(s, t, b, c, x)
    requires x.calls == s.calls[t := d] && CacheOk(x.recent) && y.calls == s.calls[t := e]
    requires Step(x, t, b, c) == y.(calls := x.calls[t := e])
    ensures Reaches(s, t, b, c, y)
  {
    assert x.calls[t := e] == s.calls[t := e];
    NextStep(s, t, b, c, x, y);
  }

  /** The code is one call of the state machine: run alone, a call ends with the same tables and result, and with its
      block in the cache if that is OK. */
  lemma CommitAlone(s: State, t: nat, b: Block, c: Choice)
    requires t < |s.calls| && s.calls[t].Called? && s.lock.None? && ChainOk(s.tables) && CacheOk(s.recent)
    requires (s.cached == -1 || s.cached == s.tables.number) && Enters(s.tables.txs, b, c.txs)
    ensures Full(s.recent) ==> s.recent.queue != []
    ensures var (tables, r) := Committing(s.tables, b, c);
      Reaches(s, t, b, c, State(tables, tables.number, None, if r == Ok(OK) then Entered(s.recent, b) else s.recent,
                                s.calls[t := Ended(r)], s.readers, s.lookups))
  {
    EnteredKeeps(s.recent, b);
    var n := s.tables.number;
    assert Reaches(s, t, b, c, s) by { assert Alone(s, t, b, c, 0) == s; }
    if b.number != n + 1 {
      NextStep(s, t, b, c, s, At(s, t, s.tables, n, None, Returned(ERROR_NUMBER)));
    } else {
      NextStep(s, t, b, c, s, At(s, t, s.tables, n, None, NumberChecked));
      CommitChecked(s, t, b, c, n);
    }
  }

  lemma CommitChecked(s: State, t: nat, b: Block, c: Choice, n: int)
    requires t < |s.calls| && ChainOk(s.tables) && CacheOk(s.recent) && n == s.tables.number == b.number - 1
    requires Enters(s.tables.txs, b, c.txs) && (Full(s.recent) ==> s.recent.queue != [])
    requires Reaches(s, t, b, c, At(s, t, s.tables, n, None, NumberChecked))
    ensures var (tables, r) := Committing(s.tables, b, c);
      Reaches(s, t, b, c, State(tables, tables.number, None, if r == Ok(OK) then Entered(s.recent, b) else s.recent,
                                s.calls[t := Ended(r)], s.readers, s.lookups))
  {
    assert Stored(s.tables, n);
    var s2 := At(s, t, s.tables, n, None, HeightRead(n));
    NextAt(s, t, b, c, At(s, t, s.tables, n, None, NumberChecked), NumberChecked, s2, HeightRead(n));
    if s.tables.hashes[n] != b.parentHash {
      NextAt(s, t, b, c, s2, HeightRead(n), At(s, t, s.tables, n, None, Returned(ERROR_PARENT_HASH)),
             Returned(ERROR_PARENT_HASH));
    } else {
      ReachesLock(s, t, b, c, n);
      CommitWrites(s, t, b, c, n);
    }
  }

  lemma ReachesLock(s: State, t: nat, b: Block, c: Choice, n: int)
    requires t < |s.calls| && CacheOk(s.recent) && n == s.tables.number == b.number - 1
    requires n in s.tables.hashes && s.tables.hashes[n] == b.parentHash && n >= 0
    requires Reaches(s, t, b, c, At(s, t, s.tables, n, None, HeightRead(n)))
    ensures Reaches(s, t, b, c, At(s, t, s.tables, n, Some(t), Rechecked(n)))
  {
    var s2, s3 := At(s, t, s.tables, n, None, HeightRead(n)), At(s, t, s.tables, n, None, ParentChecked(n));
    var s4, s5 := At(s, t, s.tables, n, Some(t), HoldsLock(n)), At(s, t, s.tables, n, Some(t), Rechecked(n));
    NextAt(s, t, b, c, s2, HeightRead(n), s3, ParentChecked(n));
    NextAt(s, t, b, c, s3, ParentChecked(n), s4, HoldsLock(n));
    NextAt(s, t, b, c, s4, HoldsLock(n), s5, Rechecked(n));
  }

  lemma CommitWrites(s: State, t: nat, b: Block, c: Choice, n: int)
    requires t < |s.calls| && CacheOk(s.recent) && n == b.number - 1
    requires Enters(s.tables.txs, b, c.txs) && (Full(s.recent) ==> s.recent.queue != [])
    requires Reaches(s, t, b, c, At(s, t, s.tables, n, Some(t), Rechecked(n)))
    ensures Reaches(s, t, b, c,
      if c.tableFails then At(s, t, s.tables, n, None, Threw)
      else if c.dbFails then At(s, t, s.tables, n, None, Returned(ERROR_COMMITTING))
      else State(Written(s.tables, b, c.txs), b.number, None, Entered(s.recent, b), s.calls[t := Returned(OK)],
                 s.readers, s.lookups))
  {
    if c.tableFails {
      NextAt(s, t, b, c, At(s, t, s.tables, n, Some(t), Rechecked(n)), Rechecked(n),
             At(s, t, s.tables, n, None, Threw), Threw);
    } else {
      var d := TablesWritten(n, Written(s.tables, b, c.txs));
      ReachesCommit(s, t, b, c, n, d);
      if c.dbFails { CommitFails(s, t, b, c, n, d); } else { CommitEnds(s, t, b, c, n); }
    }
  }

  lemma ReachesCommit(s: State, t: nat, b: Block, c: Choice, n: int, d: Call)
    requires t < |s.calls| && CacheOk(s.recent) && !c.tableFails && Enters(s.tables.txs, b, c.txs)
    requires d == TablesWritten(n, Written(s.tables, b, c.txs))
    requires Reaches(s, t, b, c, At(s, t, s.tables, n, Some(t), Rechecked(n)))
    ensures Reaches(s, t, b, c, At(s, t, s.tables, n, Some(t), d))
    ensures !c.dbFails ==> Reaches(s, t, b, c, At(s, t, Written(s.tables, b, c.txs), n, Some(t), Committed))
  {
    var s6 := At(s, t, s.tables, n, Some(t), d);
    NextAt(s, t, b, c, At(s, t, s.tables, n, Some(t), Rechecked(n)), Rechecked(n), s6, d);
    if !c.dbFails {
      NextAt(s, t, b, c, s6, d, At(s, t, Written(s.tables, b, c.txs), n, Some(t), Committed), Committed);
    }
  }

  lemma CommitFails(s: State, t: nat, b: Block, c: Choice, n: int, d: Call)
    requires t < |s.calls| && CacheOk(s.recent) && c.dbFails && d.TablesWritten?
    requires Reaches(s, t, b, c, At(s, t, s.tables, n, Some(t), d))
    ensures Reaches(s, t, b, c, At(s, t, s.tables, n, None, Returned(ERROR_COMMITTING)))
  {
    NextAt(s, t, b, c, At(s, t, s.tables, n, Some(t), d), d,
           At(s, t, s.tables, n, None, Returned(ERROR_COMMITTING)), Returned(ERROR_COMMITTING));
  }

  lemma CommitEnds(s: State, t: nat, b: Block, c: Choice, n: int)
    requires t < |s.calls| && CacheOk(s.recent) && (Full(s.recent) ==> s.recent.queue != [])
    requires Reaches(s, t, b, c, At(s, t, Written(s.tables, b, c.txs), n, Some(t), Committed))
    ensures Reaches(s, t, b, c, State(Written(s.tables, b, c.txs), b.number, None, Entered(s.recent, b),
                                      s.calls[t := Returned(OK)], s.readers, s.lookups))
  {
    var w := Written(s.tables, b, c.txs);
    var s8 := At(s, t, w, b.number, None, Announced);
    NextAt(s, t, b, c, At(s, t, w, n, Some(t), Committed), Committed, s8, Announced);
    NextAt(s, t, b, c, s8, Announced,
           State(w, b.number, None, Entered(s.recent, b), s.calls[t := Returned(OK)], s.readers, s.lookups),
           Returned(OK));
  }

  /** The window in which a new block is stored and out of reach: a call that commits a block on top of the chain passes
      through a state in which no transaction that is new with the block can be found. */
  lemma WindowIsReached(s: State, t: nat, b: Block, c: Choice)
    requires t < |s.calls| && s.calls[t].Called? && s.lock.None? && ChainOk(s.tables) && CacheOk(s.recent)
    requires (s.cached == -1 || s.cached == s.tables.number) && Enters(s.tables.txs, b, c.txs)
    requires Continues(s.tables, b) && !c.tableFails && !c.dbFails
    ensures var x := At(s, t, Written(s.tables, b, c.txs), s.tables.number, Some(t), Committed);
      && Reaches(s, t, b, c, x)
      && forall k :: 0 <= k < |b.txs| && b.txs[k].hash !in s.tables.txs ==>
           TxNow(x, b.txs[k].hash) == None && GetTxByHash(x.tables, b.txs[k].hash).Some?
  {
    var n := s.tables.number;
    assert Reaches(s, t, b, c, s) by { assert Alone(s, t, b, c, 0) == s; }
    NextStep(s, t, b, c, s, At(s, t, s.tables, n, None, NumberChecked));
    NextAt(s, t, b, c, At(s, t, s.tables, n, None, NumberChecked), NumberChecked,
           At(s, t, s.tables, n, None, HeightRead(n)), HeightRead(n));
    ReachesLock(s, t, b, c, n);
    ReachesCommit(s, t, b, c, n, TablesWritten(n, Written(s.tables, b, c.txs)));
    forall k | 0 <= k < |b.txs| && b.txs[k].hash !in s.tables.txs
      ensures TxWithin(Written(s.tables, b, c.txs), n, b.txs[k].hash) == None
      ensures GetTxByHash(Written(s.tables, b, c.txs), b.txs[k].hash).Some?
    {
      WrittenTxIsEntered(s.tables, b, c.txs, k);
    }
  }
}
