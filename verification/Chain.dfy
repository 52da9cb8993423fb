/** Committing and reading blocks (libblockchain/BlockChainImp.cpp): the tables, and concurrent calls of commitBlock,
    getBlock and getTxByHash as a state machine. Each step is one access to what the calls share. */
module Chain {
  import opened Prelude
  import opened Blocks
  import opened BlockCache

  /** The tables SYS_CURRENT_STATE (three keys), SYS_NUMBER_2_HASH, SYS_HASH_2_BLOCK and SYS_TX_HASH_2_BLOCK. */
  datatype Tables = Tables(
    number: int,
    total: Option<int>,
    failed: Option<int>,
    hashes: map<int, BlockHash>,
    blocks: map<BlockHash, Block>,
    txs: map<TxHash, (int, nat)>)

  /** A count that has no entry yet stands for zero. */
  function Count(o: Option<int>): int {
    if o.None? then 0 else o.value
  }

  /** The place is one of the block where a transaction with that hash stands. */
  predicate PlaceIn(b: Block, h: TxHash, place: (int, nat)) {
    place.0 == b.number && place.1 < |b.txs| && b.txs[place.1].hash == h
  }

  /** writeTxToBlock: the inserts run in parallel, so of several transactions with one hash any may come last. */
  ghost predicate Enters(table: map<TxHash, (int, nat)>, b: Block, m: map<TxHash, (int, nat)>) {
    && (forall k :: 0 <= k < |b.txs| ==> b.txs[k].hash in m)
    && (forall h :: h in table ==> h in m)
    && forall h :: h in m ==> PlaceIn(b, h, m[h]) || (h in table && m[h] == table[h])
  }

  /** What the writers leave in the tables of the block's own context. */
  function Written(s: Tables, b: Block, txs: map<TxHash, (int, nat)>): Tables {
    Tables(b.number, Some(Count(s.total) + |b.txs|), Some(Count(s.failed) + Failures(b.failed)),
           s.hashes[b.number := b.hash], s.blocks[b.hash := b], txs)
  }

  datatype CommitResult = OK | ERROR_NUMBER | ERROR_PARENT_HASH | ERROR_COMMITTING

  /** Where a call of commitBlock stands. */
  datatype Call =
    | Called
    | NumberChecked                          // isBlockShouldCommit held, outside the lock
    | HeightRead(n: int)                     // number() for numberHash
    | ParentChecked(n: int)                  // the parent hash was the one stored for n
    | HoldsLock(n: int)
    | Rechecked(n: int)                      // isBlockShouldCommit held again, under the lock
    | TablesWritten(n: int, context: Tables)
    | Committed
    | Announced                              // the number is set, and the lock is free again
    | Returned(result: CommitResult)
    | Threw                                  // OpenSysTableFailed

  /** Where a call of getBlock for a hash stands. */
  datatype Reader =
    | Asked(h: BlockHash)
    | Missed(h: BlockHash)
    | Found(h: BlockHash, block: Block)
    | Answered(h: BlockHash, answer: Option<Block>)

  /** Where a call of getTxByHash stands. */
  datatype Lookup =
    | Searching(h: TxHash)
    | EntryRead(h: TxHash, n: int, k: nat)                   // the height and the index that are entered for the hash
    | InRange(h: TxHash, n: int, k: nat)                     // n is not above number(), in getBlockByNumber
    | StillInRange(h: TxHash, n: int, k: nat)                // nor in getBlock
    | Reading(h: TxHash, n: int, k: nat, reader: Reader)     // getBlock for the hash that is stored for n
    | Resolved(h: TxHash, answer: Option<Tx>)                // None is the empty transaction

  /** The cached block number is -1 until number() has read it. */
  datatype State = State(tables: Tables, cached: int, lock: Option<nat>, recent: Content,
                         calls: seq<Call>, readers: seq<Reader>, lookups: seq<Lookup>)

  /** What goes wrong, should there be an occasion, and in which places the writers leave the transactions. */
  datatype Choice = Choice(tableFails: bool, dbFails: bool, txs: map<TxHash, (int, nat)>)

  /** number(). */
  function Number(s: State): int {
    if s.cached == -1 then s.tables.number else s.cached
  }

  /** After number() the number is cached. */
  function Cache(s: State): State {
    s.(cached := Number(s))
  }

  function Go(s: State, t: nat, c: Call): State
    requires t < |s.calls|
  {
    s.(calls := s.calls[t := c])
  }

  /** One step of call t, which commits block b. A choice that no order of the inserts gives is no step. */
  ghost function Step(s: State, t: nat, b: Block, c: Choice): (r: State)
    requires t < |s.calls| && CacheOk(s.recent)
    ensures |r.calls| == |s.calls| && CacheOk(r.recent)
  {
    match s.calls[t]
    case Called =>
      Go(Cache(s), t, if b.number == Number(s) + 1 then NumberChecked else Returned(ERROR_NUMBER))
    case NumberChecked =>
      Go(Cache(s), t, HeightRead(Number(s)))
    case HeightRead(n) =>
      Go(s, t, if n in s.tables.hashes && s.tables.hashes[n] == b.parentHash then ParentChecked(n)
               else Returned(ERROR_PARENT_HASH))
    case ParentChecked(n) =>
      if s.lock.None? then Go(s.(lock := Some(t)), t, HoldsLock(n)) else s
    case HoldsLock(n) =>
      if b.number == Number(s) + 1 then Go(Cache(s), t, Rechecked(n))
      else Go(Cache(s).(lock := None), t, Returned(ERROR_PARENT_HASH))
    case Rechecked(n) =>
      if c.tableFails then Go(s.(lock := None), t, Threw)
      else if Enters(s.tables.txs, b, c.txs) then Go(s, t, TablesWritten(n, Written(s.tables, b, c.txs)))
      else s
    case TablesWritten(n, context) =>
      if c.dbFails then Go(s.(lock := None), t, Returned(ERROR_COMMITTING))
      else Go(s.(tables := context), t, Committed)
    case Committed =>
      Go(s.(cached := b.number, lock := None), t, Announced)
    case Announced =>
      EnteredKeeps(s.recent, b);
      Go(s.(recent := Entered(s.recent, b)), t, Returned(OK))
    case Returned(_) => s
    case Threw => s
  }

  function Reply(s: State, i: nat, r: Reader): State
    requires i < |s.readers|
  {
    s.(readers := s.readers[i := r])
  }

  /** One step of a call of getBlock: the cache, the table, and what was found goes into the cache. */
  function ReadOn(s: State, r: Reader): (x: (Reader, Content))
    requires CacheOk(s.recent)
    ensures CacheOk(x.1) && x.0.h == r.h
  {
    match r
    case Asked(h) =>
      (if h in s.recent.entries && s.recent.entries[h].Some? then Answered(h, s.recent.entries[h]) else Missed(h),
       s.recent)
    case Missed(h) =>
      (if h in s.tables.blocks then Found(h, s.tables.blocks[h]) else Answered(h, None), s.recent)
    case Found(h, b) =>
      EnteredKeeps(s.recent, b);
      (Answered(h, Some(b)), Entered(s.recent, b))
    case Answered(_, _) => (r, s.recent)
  }

  function ReadStep(s: State, i: nat): State
    requires i < |s.readers| && CacheOk(s.recent)
  {
    var (r, recent) := ReadOn(s, s.readers[i]);
    Reply(s.(recent := recent), i, r)
  }

  /** What getTxByHash returns when getBlock has returned. */
  function FromBlock(answer: Option<Block>, k: nat): Option<Tx> {
    match answer
    case None => None
    case Some(b) => if k < |b.txs| then Some(b.txs[k]) else None
  }

  function Conclude(s: State, i: nat, l: Lookup): State
    requires i < |s.lookups|
  {
    s.(lookups := s.lookups[i := l])
  }

  /** One step of call i of getTxByHash. */
  function LookupStep(s: State, i: nat): State
    requires i < |s.lookups| && CacheOk(s.recent)
  {
    match s.lookups[i]
    case Searching(h) =>
      Conclude(s, i,
               if h in s.tables.txs then EntryRead(h, s.tables.txs[h].0, s.tables.txs[h].1) else Resolved(h, None))
    case EntryRead(h, n, k) =>
      Conclude(Cache(s), i, if n > Number(s) then Resolved(h, None) else InRange(h, n, k))
    case InRange(h, n, k) =>
      Conclude(Cache(s), i, if n > Number(s) then Resolved(h, None) else StillInRange(h, n, k))
    case StillInRange(h, n, k) =>
      Conclude(s, i, if n in s.tables.hashes then Reading(h, n, k, Asked(s.tables.hashes[n])) else Resolved(h, None))
    case Reading(h, n, k, reader) =>
      var (r, recent) := ReadOn(s, reader);
      Conclude(s.(recent := recent), i,
               if r.Answered? then Resolved(h, FromBlock(r.answer, k)) else Reading(h, n, k, r))
    case Resolved(_, _) => s
  }

  /** Block number i of the chain. */
  predicate Stored(s: Tables, i: int) {
    i in s.hashes && s.hashes[i] in s.blocks && s.blocks[s.hashes[i]].number == i
  }

  function BlockAt(s: Tables, i: int): Block
    requires Stored(s, i)
  {
    s.blocks[s.hashes[i]]
  }

  /** The transactions of the blocks 0 to n, and those that failed. */
  function TxCounts(s: Tables, n: int): (int, int)
    requires forall i :: 0 <= i <= n ==> Stored(s, i)
    decreases n
  {
    if n < 0 then (0, 0)
    else
      var (total, failed) := TxCounts(s, n - 1);
      (total + |BlockAt(s, n).txs|, failed + Failures(BlockAt(s, n).failed))
  }

  /** The places of all transactions of the blocks 0 to n. */
  ghost function TxPlaces(s: Tables, n: int): set<(int, nat)> {
    set i: int, k: nat | 0 <= i <= n && Stored(s, i) && k < |BlockAt(s, i).txs| :: (i, k)
  }

  /** The places of those whose receipt tells of a failure. */
  ghost function FailedPlaces(s: Tables, n: int): set<(int, nat)> {
    set i: int, k: nat | 0 <= i <= n && Stored(s, i) && k < |BlockAt(s, i).failed| && BlockAt(s, i).failed[k] :: (i, k)
  }

  ghost function Row(i: int, ks: set<nat>): set<(int, nat)> {
    set k | k in ks :: (i, k)
  }

  lemma {:induction false} RowSize(i: int, ks: set<nat>)
    ensures |Row(i, ks)| == |ks|
    decreases |ks|
  {
    if ks == {} {
      assert Row(i, ks) == {};
    } else {
      var k :| k in ks;
      RowSize(i, ks - {k});
      assert Row(i, ks) == Row(i, ks - {k}) + {(i, k)};
    }
  }

  /** The counts are the numbers of those places. */
  lemma {:induction false} CountsArePlaces(s: Tables, n: int)
    requires forall i :: 0 <= i <= n ==> Stored(s, i)
    ensures TxCounts(s, n) == (|TxPlaces(s, n)|, |FailedPlaces(s, n)|)
    decreases n
  {
    if n < 0 {
      assert TxPlaces(s, n) == {} && FailedPlaces(s, n) == {};
    } else {
      CountsArePlaces(s, n - 1);
      MoreTxPlaces(s, n, n - 1);
      MoreFailedPlaces(s, n, n - 1);
    }
  }

  lemma MoreTxPlaces(s: Tables, n: int, m: int)
    requires n >= 0 && m == n - 1 && Stored(s, n)
    ensures |TxPlaces(s, n)| == |TxPlaces(s, m)| + |BlockAt(s, n).txs|
  {
    var row := Row(n, Indices(|BlockAt(s, n).txs|));
    RowSize(n, Indices(|BlockAt(s, n).txs|));
    assert TxPlaces(s, n) == TxPlaces(s, m) + row;
    assert TxPlaces(s, m) !! row;
  }

  lemma MoreFailedPlaces(s: Tables, n: int, m: int)
    requires n >= 0 && m == n - 1 && Stored(s, n)
    ensures |FailedPlaces(s, n)| == |FailedPlaces(s, m)| + Failures(BlockAt(s, n).failed)
  {
    var row := Row(n, FailedAt(BlockAt(s, n).failed));
    RowSize(n, FailedAt(BlockAt(s, n).failed));
    FailuresAreCounted(BlockAt(s, n).failed);
    assert FailedPlaces(s, n) == FailedPlaces(s, m) + row;
    assert FailedPlaces(s, m) !! row;
  }

  /** In a chain, the stored counts are the number of its transactions and the number of those that failed. */
  lemma CountsOfChain(s: Tables)
    requires ChainOk(s)
    ensures Count(s.total) == |TxPlaces(s, s.number)| && Count(s.failed) == |FailedPlaces(s, s.number)|
  {
    CountsArePlaces(s, s.number);
  }

  /** A transaction with the hash stands at the place. */
  predicate StandsAt(s: Tables, h: TxHash, i: int, k: int) {
    0 <= i <= s.number && Stored(s, i) && 0 <= k < |BlockAt(s, i).txs| && BlockAt(s, i).txs[k].hash == h
  }

  /** The chain in the tables: consecutive heights, linked by parent hashes, every block under its own hash, with the
      right counts and an entry for every transaction. */
  ghost predicate ChainOk(s: Tables) {
    && s.number >= 0
    && (forall i :: 0 <= i <= s.number ==> Stored(s, i))
    && (forall i :: i in s.hashes ==> 0 <= i <= s.number)
    && (forall h :: h in s.blocks ==> s.blocks[h].hash == h)
    && (forall i :: 0 < i <= s.number ==> BlockAt(s, i).parentHash == BlockAt(s, i - 1).hash)
    && (Count(s.total), Count(s.failed)) == TxCounts(s, s.number)
    && (forall i, k :: 0 <= i <= s.number && 0 <= k < |BlockAt(s, i).txs| ==> BlockAt(s, i).txs[k].hash in s.txs)
    && (forall h :: h in s.txs ==> StandsAt(s, h, s.txs[h].0, s.txs[h].1))
  }

  /** What the tables say for a transaction hash: through the height and the hash to the block, and to the transaction
      in it. */
  function GetTxByHash(s: Tables, h: TxHash): Option<Tx> {
    if h !in s.txs then None
    else
      var (i, k) := s.txs[h];
      if 0 <= i <= s.number && i in s.hashes && s.hashes[i] in s.blocks && k < |s.blocks[s.hashes[i]].txs|
      then Some(s.blocks[s.hashes[i]].txs[k])
      else None
  }

  /** The same when blocks above a height are out of reach. */
  function TxWithin(s: Tables, height: int, h: TxHash): Option<Tx> {
    if h in s.txs && s.txs[h].0 > height then None else GetTxByHash(s, h)
  }

  /** What a call of getTxByHash returns that nothing interrupts. */
  function TxNow(s: State, h: TxHash): Option<Tx> {
    TxWithin(s.tables, Number(s), h)
  }

  /** The only transaction in the chain with that hash, if it stands in several places. */
  ghost predicate OnlyTx(s: Tables, tx: Tx) {
    && (exists i, k :: StandsAt(s, tx.hash, i, k))
    && forall i, k :: StandsAt(s, tx.hash, i, k) ==> BlockAt(s, i).txs[k] == tx
  }

  /** A transaction of the chain that shares its hash with no different one is found by it exactly when the height that
      is entered for it is not above number(). */
  ghost predicate FoundWithinNumber(s: State) {
    forall tx :: OnlyTx(s.tables, tx) ==>
      tx.hash in s.tables.txs && (TxNow(s, tx.hash) == Some(tx) <==> s.tables.txs[tx.hash].0 <= Number(s))
  }

  lemma EntryStands(s: Tables, h: TxHash)
    requires ChainOk(s)
    ensures h in s.txs <==> exists i, k :: StandsAt(s, h, i, k)
    ensures h in s.txs ==> StandsAt(s, h, s.txs[h].0, s.txs[h].1)
  {
    if i, k :| StandsAt(s, h, i, k) { assert BlockAt(s, i).txs[k].hash in s.txs; }
    if h in s.txs { assert StandsAt(s, h, s.txs[h].0, s.txs[h].1); }
  }

  lemma CommittedTxIsFound(s: State)
    requires ChainOk(s.tables)
    ensures FoundWithinNumber(s)
  {
    forall tx | OnlyTx(s.tables, tx)
      ensures tx.hash in s.tables.txs && (TxNow(s, tx.hash) == Some(tx) <==> s.tables.txs[tx.hash].0 <= Number(s))
    {
      EntryStands(s.tables, tx.hash);
    }
  }

  /** A hash finds something exactly when it is entered for a height up to number(), and what it finds is a committed
      transaction with that hash. */
  lemma FoundTxIsCommitted(s: State, h: TxHash)
    requires ChainOk(s.tables)
    ensures TxNow(s, h).Some? <==> (exists i, k :: StandsAt(s.tables, h, i, k)) && s.tables.txs[h].0 <= Number(s)
    ensures TxNow(s, h).Some? ==> exists i, k ::
      StandsAt(s.tables, h, i, k) && i <= Number(s) && BlockAt(s.tables, i).txs[k] == TxNow(s, h).value
  {
    EntryStands(s.tables, h);
  }

  /** No block shares a hash with a different one. */
  ghost predicate NoCollision(s: Tables, blocks: seq<Block>) {
    && (forall t :: 0 <= t < |blocks| && blocks[t].hash in s.blocks ==> s.blocks[blocks[t].hash] == blocks[t])
    && forall t, u :: 0 <= t < |blocks| && 0 <= u < |blocks| && blocks[t].hash == blocks[u].hash ==>
                      blocks[t] == blocks[u]
  }

  /** The tables t hold all blocks of s and its chain, and perhaps more blocks above it. */
  ghost predicate Extends(s: Tables, t: Tables) {
    && s.number <= t.number
    && (forall h :: h in s.blocks ==> h in t.blocks && t.blocks[h] == s.blocks[h])
    && forall i :: 0 <= i <= s.number ==>
         Stored(s, i) && Stored(t, i) && t.hashes[i] == s.hashes[i] && BlockAt(t, i) == BlockAt(s, i)
  }

  lemma {:induction false} TxCountsKept(s: Tables, t: Tables, n: int)
    requires forall i :: 0 <= i <= n ==> Stored(s, i) && Stored(t, i) && BlockAt(t, i) == BlockAt(s, i)
    ensures TxCounts(s, n) == TxCounts(t, n)
    decreases n
  {
    if n >= 0 { TxCountsKept(s, t, n - 1); }
  }

  /** The block b can be written on top of s. */
  ghost predicate Continues(s: Tables, b: Block) {
    && b.number == s.number + 1 && Stored(s, s.number) && s.hashes[s.number] == b.parentHash
    && (b.hash in s.blocks ==> s.blocks[b.hash] == b)
  }

  /** Writing the next block on top of its parent gives a longer chain. */
  lemma WrittenChain(s: Tables, b: Block, txs: map<TxHash, (int, nat)>)
    requires ChainOk(s) && Continues(s, b) && Enters(s.txs, b, txs)
    ensures ChainOk(Written(s, b, txs)) && Extends(s, Written(s, b, txs))
    ensures Stored(Written(s, b, txs), b.number) && BlockAt(Written(s, b, txs), b.number) == b
  {
    var t := Written(s, b, txs);
    WrittenStored(s, b, txs);
    WrittenTxs(s, b, txs);
    TxCountsKept(s, t, s.number);
    forall i | 0 < i <= t.number ensures BlockAt(t, i).parentHash == BlockAt(t, i - 1).hash {
      if i <= s.number { assert BlockAt(s, i).parentHash == BlockAt(s, i - 1).hash; }
    }
  }

  lemma WrittenStored(s: Tables, b: Block, txs: map<TxHash, (int, nat)>)
    requires ChainOk(s) && Continues(s, b)
    ensures forall i :: 0 <= i <= b.number ==> Stored(Written(s, b, txs), i)
    ensures forall i :: 0 <= i <= s.number ==> BlockAt(Written(s, b, txs), i) == BlockAt(s, i)
    ensures BlockAt(Written(s, b, txs), b.number) == b
  {
    var t := Written(s, b, txs);
    forall i | 0 <= i <= s.number ensures Stored(t, i) && BlockAt(t, i) == BlockAt(s, i) {
      assert Stored(s, i);
    }
  }

  lemma WrittenTxs(s: Tables, b: Block, txs: map<TxHash, (int, nat)>)
    requires ChainOk(s) && Continues(s, b) && Enters(s.txs, b, txs)
    ensures var t := Written(s, b, txs);
      && (forall i :: 0 <= i <= t.number ==> Stored(t, i))
      && (forall i, k :: 0 <= i <= t.number && 0 <= k < |BlockAt(t, i).txs| ==> BlockAt(t, i).txs[k].hash in t.txs)
      && forall h :: h in t.txs ==> StandsAt(t, h, t.txs[h].0, t.txs[h].1)
  {
    var t := Written(s, b, txs);
    WrittenStored(s, b, txs);
    forall h | h in t.txs ensures StandsAt(t, h, t.txs[h].0, t.txs[h].1) {
      if !PlaceIn(b, h, t.txs[h]) { assert StandsAt(s, h, s.txs[h].0, s.txs[h].1); }
    }
    forall i, k | 0 <= i <= t.number && 0 <= k < |BlockAt(t, i).txs| ensures BlockAt(t, i).txs[k].hash in t.txs {
      if i <= s.number { assert BlockAt(s, i).txs[k].hash in s.txs; }
    }
  }

  /** A transaction that is new with the block is entered for it. */
  lemma WrittenTxIsEntered(s: Tables, b: Block, txs: map<TxHash, (int, nat)>, k: nat)
    requires ChainOk(s) && Continues(s, b) && Enters(s.txs, b, txs) && k < |b.txs| && b.txs[k].hash !in s.txs
    ensures var h, w := b.txs[k].hash, Written(s, b, txs);
      && h in w.txs && w.txs[h].0 == b.number && GetTxByHash(w, h).Some?
      && (|b.txs| == 1 ==> GetTxByHash(w, h) == Some(b.txs[0]))
  {
    WrittenStored(s, b, txs);
    assert PlaceIn(b, b.txs[k].hash, txs[b.txs[k].hash]);
  }
}
