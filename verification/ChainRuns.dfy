/** What every interleaving of calls of commitBlock, getBlock and getTxByHash keeps. */
module ChainRuns {
  import opened Prelude
  import opened Blocks
  import opened BlockCache
  import opened Chain

  /** The calls that are inside the lock. */
  predicate Inside(c: Call) {
    c.HoldsLock? || c.Rechecked? || c.TablesWritten? || c.Committed?
  }

  /** What a call knows about the tables, by the place where it stands. */
  ghost predicate Knows(s: State, t: nat, b: Block)
    requires t < |s.calls|
  {
    match s.calls[t]
    case Called => true
    case NumberChecked => s.cached != -1 && b.number - 1 <= s.cached
    case HeightRead(n) => s.cached != -1 && 0 <= n && b.number - 1 <= n <= s.cached
    case ParentChecked(n) => LinkRead(s, n, b)
    case HoldsLock(n) => LinkRead(s, n, b)
    case Rechecked(n) => LinkRead(s, n, b) && s.cached == s.tables.number == b.number - 1
    case TablesWritten(n, context) =>
      LinkRead(s, n, b) && s.cached == s.tables.number == b.number - 1 && IsWritten(s.tables, b, context)
    case Committed => 0 < b.number == s.tables.number && InChain(s.tables, b)
    case Announced => InChain(s.tables, b)
    case Returned(r) => r == OK ==> InChain(s.tables, b)
    case Threw => true
  }

  /** The block is the one of its height. */
  predicate InChain(s: Tables, b: Block) {
    0 <= b.number <= s.number && Stored(s, b.number) && BlockAt(s, b.number) == b
  }

  ghost predicate IsWritten(s: Tables, b: Block, context: Tables) {
    Enters(s.txs, b, context.txs) && context == Written(s, b, context.txs)
  }

  /** The parent hash is the one stored for a height that was current, or later than the block's parent. */
  ghost predicate LinkRead(s: State, n: int, b: Block) {
    && s.cached != -1 && 0 <= n && b.number - 1 <= n <= s.cached
    && n in s.tables.hashes && s.tables.hashes[n] == b.parentHash
  }

  /** The cached number is that of the tables, except between the commit and its announcement. */
  ghost predicate NumberOk(s: State) {
    || s.cached == -1
    || s.cached == s.tables.number
    || (s.cached == s.tables.number - 1 && s.lock.Some? && s.lock.value < |s.calls| && s.calls[s.lock.value].Committed?)
  }

  ghost predicate LockOk(s: State) {
    && (s.lock.Some? ==> s.lock.value < |s.calls|)
    && forall t :: 0 <= t < |s.calls| ==> (Inside(s.calls[t]) <==> s.lock == Some(t))
  }

  /** After a commit, before its announcement, the cached number is one behind. */
  ghost predicate Announcing(s: State) {
    s.lock.Some? && s.lock.value < |s.calls| && s.calls[s.lock.value].Committed? ==> s.cached == s.tables.number - 1
  }

  /** The cache has nothing but stored blocks. */
  ghost predicate RecentOk(s: State) {
    && CacheOk(s.recent)
    && forall h :: h in s.recent.entries ==> h in s.tables.blocks && s.recent.entries[h] == Some(s.tables.blocks[h])
  }

  /** What a call of getBlock has found, or answers, is the stored block. */
  predicate ReaderOk(s: Tables, r: Reader) {
    match r
    case Asked(_) => true
    case Missed(_) => true
    case Found(h, b) => h in s.blocks && s.blocks[h] == b
    case Answered(h, a) => a.Some? ==> h in s.blocks && s.blocks[h] == a.value
  }

  /** A call of getTxByHash has read a place where a transaction with that hash stands, and reads the block there; what
      it returns is a transaction of the chain. */
  ghost predicate LookupOk(s: Tables, l: Lookup) {
    match l
    case Searching(_) => true
    case EntryRead(h, n, k) => StandsAt(s, h, n, k)
    case InRange(h, n, k) => StandsAt(s, h, n, k)
    case StillInRange(h, n, k) => StandsAt(s, h, n, k)
    case Reading(h, n, k, r) => StandsAt(s, h, n, k) && ReaderOk(s, r) && r.h == s.hashes[n] && !r.Answered?
    case Resolved(h, a) => a.Some? ==> Stands(s, h, a.value)
  }

  ghost predicate Stands(s: Tables, h: TxHash, tx: Tx) {
    exists i, k :: StandsAt(s, h, i, k) && BlockAt(s, i).txs[k] == tx
  }

  ghost predicate ReadersOk(s: State) {
    && (forall i :: 0 <= i < |s.readers| ==> ReaderOk(s.tables, s.readers[i]))
    && forall i :: 0 <= i < |s.lookups| ==> LookupOk(s.tables, s.lookups[i])
  }

  ghost predicate Inv(s: State, blocks: seq<Block>) {
    && |s.calls| == |blocks| && s.cached >= -1
    && ChainOk(s.tables) && NoCollision(s.tables, blocks)
    && NumberOk(s) && LockOk(s) && Announcing(s) && RecentOk(s) && ReadersOk(s)
    && forall t :: 0 <= t < |s.calls| ==> Knows(s, t, blocks[t])
  }

  /** All calls are about to begin. */
  ghost predicate Init(s: State, blocks: seq<Block>) {
    && |s.calls| == |blocks| && ChainOk(s.tables) && NoCollision(s.tables, blocks)
    && (s.cached == -1 || s.cached == s.tables.number) && s.lock.None? && RecentOk(s)
    && (forall t :: 0 <= t < |s.calls| ==> s.calls[t].Called?)
    && (forall i :: 0 <= i < |s.readers| ==> s.readers[i].Asked?)
    && forall i :: 0 <= i < |s.lookups| ==> s.lookups[i].Searching?
  }

  lemma InitInv(s: State, blocks: seq<Block>)
    requires Init(s, blocks)
    ensures Inv(s, blocks)
  {
  }

  /** What other calls know survives steps that only append to the chain and only raise the cached number. */
  lemma KnowsKept(s: State, s': State, t: nat, b: Block)
    requires t < |s.calls| == |s'.calls| && s'.calls[t] == s.calls[t] && Knows(s, t, b)
    requires ChainOk(s.tables) && ChainOk(s'.tables) && Extends(s.tables, s'.tables)
    requires s.cached <= s'.cached && (s.cached != -1 ==> s'.cached != -1) && s.cached <= s.tables.number
    requires Inside(s.calls[t]) ==> s'.tables == s.tables && (s.cached != -1 ==> s'.cached == s.cached)
    ensures Knows(s', t, b)
  {
    match s.calls[t]
    case ParentChecked(n) => LinkKept(s, s', n, b);
    case HoldsLock(n) => LinkKept(s, s', n, b);
    case Returned(r) => if r == OK { InChainKept(s.tables, s'.tables, b); }
    case Announced => InChainKept(s.tables, s'.tables, b);
    case _ =>
  }

  lemma InChainKept(s: Tables, t: Tables, b: Block)
    requires InChain(s, b) && Extends(s, t)
    ensures InChain(t, b)
  {
    assert Stored(t, b.number) && BlockAt(t, b.number) == BlockAt(s, b.number);
  }

  lemma LinkKept(s: State, s': State, n: int, b: Block)
    requires LinkRead(s, n, b) && Extends(s.tables, s'.tables) && ChainOk(s'.tables)
    requires s.cached <= s'.cached && s.cached <= s.tables.number && s'.cached != -1
    ensures LinkRead(s', n, b)
  {
    assert Stored(s.tables, n) && Stored(s'.tables, n) && BlockAt(s'.tables, n) == BlockAt(s.tables, n);
  }

  /** A step that changes neither the tables nor what is cached, but for reading it. */
  lemma QuietStep(s: State, t: nat, s': State, blocks: seq<Block>, c: Call, lock: Option<nat>)
    requires Inv(s, blocks) && t < |s.calls|
    requires s' == State(s.tables, s'.cached, lock, s.recent, s.calls[t := c], s.readers, s.lookups)
    requires s'.cached == s.cached || s'.cached == Number(s)
    requires Knows(s', t, blocks[t]) && !s.calls[t].Committed? && !c.Committed?
    requires lock == if Inside(c) then Some(t) else if Inside(s.calls[t]) then None else s.lock
    requires Inside(c) && !Inside(s.calls[t]) ==> s.lock.None?
    ensures Inv(s', blocks)
  {
    assert Knows(s, t, blocks[t]);
    assert s.lock.Some? ==> Knows(s, s.lock.value, blocks[s.lock.value]);
    forall u | 0 <= u < |s.calls| ensures Knows(s', u, blocks[u]) {
      if u != t {
        assert Knows(s, u, blocks[u]);
        SameTables(s, s', u, blocks[u]);
      }
    }
    assert forall u :: 0 <= u < |s.calls| && u != t ==> s'.calls[u] == s.calls[u];
    ReadersKept(s, s');
  }

  lemma ReadersKept(s: State, s': State)
    requires ReadersOk(s) && ChainOk(s.tables) && s'.readers == s.readers && s'.lookups == s.lookups
    requires s'.tables == s.tables || Extends(s.tables, s'.tables)
    ensures ReadersOk(s')
  {
    forall i | 0 <= i < |s.lookups| ensures LookupOk(s'.tables, s.lookups[i]) {
      LookupKept(s.tables, s'.tables, s.lookups[i]);
    }
    forall i | 0 <= i < |s.readers| ensures ReaderOk(s'.tables, s.readers[i]) {
      assert ReaderOk(s.tables, s.readers[i]);
    }
  }

  lemma StandsAtKept(s: Tables, t: Tables, h: TxHash, i: int, k: int)
    requires s == t || Extends(s, t)
    ensures StandsAt(s, h, i, k) ==>
      StandsAt(t, h, i, k) && BlockAt(t, i) == BlockAt(s, i) && t.hashes[i] == s.hashes[i]
  {
  }

  lemma LookupKept(s: Tables, t: Tables, l: Lookup)
    requires (s == t || Extends(s, t)) && LookupOk(s, l)
    ensures LookupOk(t, l)
  {
    match l
    case Searching(_) =>
    case EntryRead(h, n, k) => StandsAtKept(s, t, h, n, k);
    case InRange(h, n, k) => StandsAtKept(s, t, h, n, k);
    case StillInRange(h, n, k) => StandsAtKept(s, t, h, n, k);
    case Reading(h, n, k, r) => StandsAtKept(s, t, h, n, k);
    case Resolved(h, a) =>
      if a.Some? {
        var i, k :| StandsAt(s, h, i, k) && BlockAt(s, i).txs[k] == a.value;
        StandsAtKept(s, t, h, i, k);
      }
  }

  lemma SameTables(s: State, s': State, u: nat, b: Block)
    requires u < |s.calls| == |s'.calls| && s'.calls[u] == s.calls[u] && Knows(s, u, b)
    requires s'.tables == s.tables && ChainOk(s.tables) && s.cached <= s.tables.number
    requires s'.cached == s.cached || (s.cached == -1 && s'.cached == s.tables.number)
    ensures Knows(s', u, b)
  {
    match s.calls[u]
    case _ =>
  }

  lemma CalledKeeps(s: State, t: nat, b: Block, blocks: seq<Block>, c: Choice)
    requires Inv(s, blocks) && t < |s.calls| && b == blocks[t] && (s.calls[t].Called? || s.calls[t].NumberChecked?)
    ensures Inv(Step(s, t, b, c), blocks) && Step(s, t, b, c).tables == s.tables
  {
    var s' := Step(s, t, b, c);
    assert Knows(s, t, b);
    QuietStep(s, t, s', blocks, s'.calls[t], s.lock);
  }

  lemma HeightReadKeeps(s: State, t: nat, b: Block, blocks: seq<Block>, c: Choice)
    requires Inv(s, blocks) && t < |s.calls| && b == blocks[t] && (s.calls[t].HeightRead? || s.calls[t].ParentChecked?)
    ensures Inv(Step(s, t, b, c), blocks) && Step(s, t, b, c).tables == s.tables
  {
    var s' := Step(s, t, b, c);
    assert Knows(s, t, b);
    if s' != s { QuietStep(s, t, s', blocks, s'.calls[t], s'.lock); }
  }

  /** Under the lock: if the number is still right, the height read before is the current one. */
  lemma RecheckKeeps(s: State, t: nat, b: Block, blocks: seq<Block>, c: Choice)
    requires Inv(s, blocks) && t < |s.calls| && b == blocks[t] && s.calls[t].HoldsLock?
    ensures Inv(Step(s, t, b, c), blocks) && Step(s, t, b, c).tables == s.tables
    ensures Step(s, t, b, c).calls[t].Rechecked? ==>
      s.tables.number == s.calls[t].n == b.number - 1 && s.tables.hashes[s.tables.number] == b.parentHash
  {
    var s' := Step(s, t, b, c);
    assert Knows(s, t, b) && s.lock == Some(t);
    QuietStep(s, t, s', blocks, s'.calls[t], s'.lock);
  }

  lemma WriteKeeps(s: State, t: nat, b: Block, blocks: seq<Block>, c: Choice)
    requires Inv(s, blocks) && t < |s.calls| && b == blocks[t] && s.calls[t].Rechecked?
    ensures Inv(Step(s, t, b, c), blocks) && Step(s, t, b, c).tables == s.tables
  {
    var s' := Step(s, t, b, c);
    assert Knows(s, t, b) && s.lock == Some(t);
    if s' != s { QuietStep(s, t, s', blocks, s'.calls[t], s'.lock); }
  }

  lemma FailKeeps(s: State, t: nat, b: Block, blocks: seq<Block>, c: Choice)
    requires Inv(s, blocks) && t < |s.calls| && b == blocks[t] && s.calls[t].TablesWritten? && c.dbFails
    ensures Inv(Step(s, t, b, c), blocks) && Step(s, t, b, c).tables == s.tables
  {
    var s' := Step(s, t, b, c);
    assert Knows(s, t, b) && s.lock == Some(t);
    QuietStep(s, t, s', blocks, s'.calls[t], s'.lock);
  }

  /** What is needed to write the block. */
  lemma ReadyToWrite(s: State, t: nat, b: Block, blocks: seq<Block>)
    requires Inv(s, blocks) && t < |s.calls| && b == blocks[t] && s.calls[t].TablesWritten?
    ensures Continues(s.tables, b) && IsWritten(s.tables, b, s.calls[t].context) && s.lock == Some(t)
  {
    assert Knows(s, t, b);
    assert Stored(s.tables, s.tables.number);
  }

  lemma CommitKeeps(s: State, t: nat, b: Block, blocks: seq<Block>, c: Choice)
    requires Inv(s, blocks) && t < |s.calls| && b == blocks[t] && s.calls[t].TablesWritten? && !c.dbFails
    ensures Inv(Step(s, t, b, c), blocks) && Extends(s.tables, Step(s, t, b, c).tables)
  {
    ReadyToWrite(s, t, b, blocks);
    WrittenChain(s.tables, b, s.calls[t].context.txs);
    var s' := Step(s, t, b, c);
    forall u | 0 <= u < |s.calls| ensures Knows(s', u, blocks[u]) {
      assert Knows(s, u, blocks[u]);
      if u != t { KnowsKept(s, s', u, blocks[u]); }
    }
    ReadersKept(s, s');
  }

  lemma AnnounceKeeps(s: State, t: nat, b: Block, blocks: seq<Block>, c: Choice)
    requires Inv(s, blocks) && t < |s.calls| && b == blocks[t] && s.calls[t].Committed?
    ensures Inv(Step(s, t, b, c), blocks) && Step(s, t, b, c).tables == s.tables
  {
    var s' := Step(s, t, b, c);
    assert Knows(s, t, b) && s.lock == Some(t);
    forall u | 0 <= u < |s.calls| ensures Knows(s', u, blocks[u]) {
      assert Knows(s, u, blocks[u]);
      if u != t { KnowsKept(s, s', u, blocks[u]); }
    }
    ReadersKept(s, s');
  }

  /** A stored block goes into the cache. */
  lemma RecentKept(s: State, b: Block)
    requires RecentOk(s) && ChainOk(s.tables) && b.hash in s.tables.blocks && s.tables.blocks[b.hash] == b
    ensures (Full(s.recent) ==> s.recent.queue != []) && RecentOk(s.(recent := Entered(s.recent, b)))
  {
    EnteredKeeps(s.recent, b);
  }

  lemma RememberKeeps(s: State, t: nat, b: Block, blocks: seq<Block>, c: Choice)
    requires Inv(s, blocks) && t < |s.calls| && b == blocks[t] && s.calls[t].Announced?
    ensures Inv(Step(s, t, b, c), blocks) && Step(s, t, b, c).tables == s.tables
  {
    assert Knows(s, t, b);
    RecentKept(s, b);
    var r := s.(recent := Entered(s.recent, b));
    ReadersKept(s, r);
    ReadingKeeps(s, r, blocks);
    var s' := Step(s, t, b, c);
    QuietStep(r, t, s', blocks, Returned(OK), s.lock);
  }

  /** Calls that only read keep the invariant. */
  lemma ReadingKeeps(s: State, r: State, blocks: seq<Block>)
    requires Inv(s, blocks) && RecentOk(r) && ReadersOk(r) && (r.cached == s.cached || r.cached == Number(s))
    requires r == s.(cached := r.cached, recent := r.recent, readers := r.readers, lookups := r.lookups)
    ensures Inv(r, blocks)
  {
    assert s.lock.Some? ==> Knows(s, s.lock.value, blocks[s.lock.value]);
    forall t | 0 <= t < |r.calls| ensures Knows(r, t, blocks[t]) {
      assert Knows(s, t, blocks[t]);
      SameTables(s, r, t, blocks[t]);
    }
  }

  /** Every step of every call keeps the invariant, and only appends to the chain. */
  lemma StepKeeps(s: State, t: nat, blocks: seq<Block>, c: Choice)
    requires Inv(s, blocks) && t < |s.calls|
    ensures Inv(Step(s, t, blocks[t], c), blocks)
    ensures Extends(s.tables, Step(s, t, blocks[t], c).tables)
    ensures Step(s, t, blocks[t], c).tables == s.tables || (s.calls[t].TablesWritten? && !c.dbFails)
  {
    var b := blocks[t];
    match s.calls[t]
    case Called => CalledKeeps(s, t, b, blocks, c);
    case NumberChecked => CalledKeeps(s, t, b, blocks, c);
    case HeightRead(_) => HeightReadKeeps(s, t, b, blocks, c);
    case ParentChecked(_) => HeightReadKeeps(s, t, b, blocks, c);
    case HoldsLock(_) => RecheckKeeps(s, t, b, blocks, c);
    case Rechecked(_) => WriteKeeps(s, t, b, blocks, c);
    case TablesWritten(_, _) =>
      if c.dbFails { FailKeeps(s, t, b, blocks, c); } else { CommitKeeps(s, t, b, blocks, c); }
    case Committed => AnnounceKeeps(s, t, b, blocks, c);
    case Announced => RememberKeeps(s, t, b, blocks, c);
    case Returned(_) =>
    case Threw =>
  }

  /** What getBlock finds out in one step is the stored block, or that there is none. */
  lemma ReadOnOk(s: State, r: Reader)
    requires RecentOk(s) && ChainOk(s.tables) && ReaderOk(s.tables, r)
    ensures var (r', recent) := ReadOn(s, r);
      && ReaderOk(s.tables, r') && RecentOk(s.(recent := recent))
      && (r'.Answered? && r'.answer.None? ==> r' == r || r'.h !in s.tables.blocks)
  {
    if r.Found? { RecentKept(s, r.block); }
  }

  /** Every step of a call of getBlock keeps the invariant, and changes no table. A call that now answers with a block
      answers with the stored one, and one that answers with none has seen the table without it. */
  lemma ReadStepKeeps(s: State, i: nat, blocks: seq<Block>)
    requires Inv(s, blocks) && i < |s.readers|
    ensures Inv(ReadStep(s, i), blocks) && ReadStep(s, i).tables == s.tables && ReadStep(s, i).calls == s.calls
    ensures var r := ReadStep(s, i).readers[i];
      r.Answered? && r.answer.None? ==> r == s.readers[i] || r.h !in s.tables.blocks
  {
    var s' := ReadStep(s, i);
    assert ReaderOk(s.tables, s.readers[i]);
    ReadOnOk(s, s.readers[i]);
    assert ReadersOk(s') by {
      forall j | 0 <= j < |s'.readers| ensures ReaderOk(s'.tables, s'.readers[j]) {
        if j != i { assert ReaderOk(s.tables, s.readers[j]); }
      }
    }
    ReadingKeeps(s, s', blocks);
  }

  /** What a call of getTxByHash knows after its next step. */
  lemma LookupStepOk(s: State, i: nat)
    requires i < |s.lookups| && RecentOk(s) && ChainOk(s.tables) && LookupOk(s.tables, s.lookups[i])
    ensures LookupOk(s.tables, LookupStep(s, i).lookups[i]) && RecentOk(LookupStep(s, i))
  {
    match s.lookups[i]
    case Searching(h) => if h in s.tables.txs { assert StandsAt(s.tables, h, s.tables.txs[h].0, s.tables.txs[h].1); }
    case Reading(h, n, k, r) => ReadOnOk(s, r);
    case _ =>
  }

  /** It returns nothing only if the hash is not entered, or if it is for a height above number(). */
  lemma ResolvedToNone(s: State, i: nat)
    requires i < |s.lookups| && RecentOk(s) && ChainOk(s.tables) && LookupOk(s.tables, s.lookups[i])
    requires var l := LookupStep(s, i).lookups[i]; l.Resolved? && l.answer.None?
    ensures var l := s.lookups[i]; l.Resolved? || l.h !in s.tables.txs || StandsAbove(s.tables, Number(s), l.h)
  {
    match s.lookups[i]
    case Reading(h, n, k, r) => ReadOnOk(s, r);
    case _ =>
  }

  /** A transaction with the hash stands above that height. */
  ghost predicate StandsAbove(s: Tables, height: int, h: TxHash) {
    exists i, k :: i > height && StandsAt(s, h, i, k)
  }

  /** Every step of a call of getTxByHash keeps the invariant, and changes no table. */
  lemma LookupStepKeeps(s: State, i: nat, blocks: seq<Block>)
    requires Inv(s, blocks) && i < |s.lookups|
    ensures Inv(LookupStep(s, i), blocks) && LookupStep(s, i).tables == s.tables && LookupStep(s, i).calls == s.calls
  {
    var s' := LookupStep(s, i);
    assert LookupOk(s.tables, s.lookups[i]);
    LookupStepOk(s, i);
    LookupFrame(s, i);
    assert ReadersOk(s') by {
      forall j | 0 <= j < |s'.lookups| ensures LookupOk(s'.tables, s'.lookups[j]) {
        if j != i { assert LookupOk(s.tables, s.lookups[j]); }
      }
    }
    ReadingKeeps(s, s', blocks);
  }

  /** What a step of a call of getTxByHash leaves alone. */
  lemma LookupFrame(s: State, i: nat)
    requires i < |s.lookups| && CacheOk(s.recent)
    ensures var r := LookupStep(s, i);
      && r == s.(cached := r.cached, recent := r.recent, lookups := r.lookups)
      && (r.cached == s.cached || r.cached == Number(s)) && |r.lookups| == |s.lookups|
      && forall j :: 0 <= j < |s.lookups| && j != i ==> r.lookups[j] == s.lookups[j]
  {
  }

  /** Who takes the next step. */
  datatype Turn = Commit(t: nat, choice: Choice) | Read(i: nat) | Search(i: nat)

  ghost function TurnStep(s: State, blocks: seq<Block>, turn: Turn): State
    requires Inv(s, blocks)
  {
    match turn
    case Commit(t, c) => if t < |blocks| then Step(s, t, blocks[t], c) else s
    case Read(i) => if i < |s.readers| then ReadStep(s, i) else s
    case Search(i) => if i < |s.lookups| then LookupStep(s, i) else s
  }

  lemma TurnKeeps(s: State, blocks: seq<Block>, turn: Turn)
    requires Inv(s, blocks)
    ensures Inv(TurnStep(s, blocks, turn), blocks)
    ensures Extends(s.tables, TurnStep(s, blocks, turn).tables)
  {
    match turn
    case Commit(t, c) => if t < |blocks| { StepKeeps(s, t, blocks, c); }
    case Read(i) => if i < |s.readers| { ReadStepKeeps(s, i, blocks); }
    case Search(i) => if i < |s.lookups| { LookupStepKeeps(s, i, blocks); }
  }

  /** A run: an interleaving of steps of the calls, with what goes wrong in them. */
  ghost function Run(s: State, blocks: seq<Block>, schedule: seq<Turn>): (r: State)
    requires Inv(s, blocks)
    ensures Inv(r, blocks)
    decreases |schedule|
  {
    if schedule == [] then s
    else
      TurnKeeps(s, blocks, schedule[0]);
      Run(TurnStep(s, blocks, schedule[0]), blocks, schedule[1..])
  }

  lemma {:induction false} RunExtends(s: State, blocks: seq<Block>, schedule: seq<Turn>)
    requires Inv(s, blocks)
    ensures Extends(s.tables, Run(s, blocks, schedule).tables)
    decreases |schedule|
  {
    if schedule == [] {
    } else {
      TurnKeeps(s, blocks, schedule[0]);
      var s' := TurnStep(s, blocks, schedule[0]);
      RunExtends(s', blocks, schedule[1..]);
      ExtendsTransitive(s.tables, s'.tables, Run(s', blocks, schedule[1..]).tables);
    }
  }

  lemma ExtendsTransitive(a: Tables, b: Tables, c: Tables)
    requires Extends(a, b) && Extends(b, c)
    ensures Extends(a, c)
  {
  }

  /** Call t has put its block into the tables. */
  predicate Landed(s: State, t: nat)
    requires t < |s.calls|
  {
    s.calls[t].Committed? || s.calls[t].Announced? || s.calls[t] == Returned(OK)
  }

  /** Every block above a height was put there by a call. */
  ghost predicate Accounted(s: State, blocks: seq<Block>, base: int) {
    && |s.calls| == |blocks| && ChainOk(s.tables) && base >= 0
    && forall i :: base < i <= s.tables.number ==> PutBySome(s, blocks, i)
  }

  ghost predicate PutBySome(s: State, blocks: seq<Block>, i: int)
    requires |s.calls| == |blocks|
  {
    exists t :: 0 <= t < |blocks| && Put(s, blocks, t, i)
  }

  ghost predicate Put(s: State, blocks: seq<Block>, t: nat, i: int)
    requires t < |s.calls| == |blocks|
  {
    Landed(s, t) && Stored(s.tables, i) && blocks[t] == BlockAt(s.tables, i)
  }

  lemma PutKept(s: State, s': State, blocks: seq<Block>, i: int)
    requires |s.calls| == |s'.calls| == |blocks| && 0 <= i <= s.tables.number && PutBySome(s, blocks, i)
    requires Extends(s.tables, s'.tables)
    requires forall t :: 0 <= t < |blocks| && Landed(s, t) ==> Landed(s', t)
    ensures PutBySome(s', blocks, i)
  {
    var u :| 0 <= u < |blocks| && Put(s, blocks, u, i);
    assert Stored(s'.tables, i) && BlockAt(s'.tables, i) == BlockAt(s.tables, i);
    assert Put(s', blocks, u, i);
  }

  lemma TurnAccounted(s: State, blocks: seq<Block>, turn: Turn, base: int)
    requires Inv(s, blocks) && Accounted(s, blocks, base)
    ensures Accounted(TurnStep(s, blocks, turn), blocks, base)
  {
    TurnKeeps(s, blocks, turn);
    var s' := TurnStep(s, blocks, turn);
    LandedKept(s, blocks, turn);
    forall i | base < i <= s'.tables.number ensures PutBySome(s', blocks, i) {
      if i <= s.tables.number {
        PutKept(s, s', blocks, i);
      } else {
        NewIsPut(s, blocks, turn, i);
      }
    }
  }

  lemma NewIsPut(s: State, blocks: seq<Block>, turn: Turn, i: int)
    requires Inv(s, blocks) && s.tables.number < i <= TurnStep(s, blocks, turn).tables.number
    ensures |TurnStep(s, blocks, turn).calls| == |blocks| && PutBySome(TurnStep(s, blocks, turn), blocks, i)
  {
    NewIsOwn(s, blocks, turn);
    assert Put(TurnStep(s, blocks, turn), blocks, turn.t, i);
  }

  lemma LandedKept(s: State, blocks: seq<Block>, turn: Turn)
    requires Inv(s, blocks)
    ensures |TurnStep(s, blocks, turn).calls| == |blocks|
    ensures forall t :: 0 <= t < |blocks| && Landed(s, t) ==> Landed(TurnStep(s, blocks, turn), t)
  {
    if turn.Commit? && turn.t < |blocks| {
      StepFrame(s, turn.t, blocks[turn.t], turn.choice);
    } else if turn.Read? && turn.i < |s.readers| {
      ReadFrame(s, turn.i);
    } else if turn.Search? && turn.i < |s.lookups| {
      LookupFrame(s, turn.i);
    }
  }

  /** What a step of a call of commitBlock leaves alone. */
  lemma StepFrame(s: State, t: nat, b: Block, c: Choice)
    requires t < |s.calls| && CacheOk(s.recent)
    ensures var r := Step(s, t, b, c);
      && |r.calls| == |s.calls| && r.readers == s.readers && r.lookups == s.lookups && (Landed(s, t) ==> Landed(r, t))
      && forall u :: 0 <= u < |s.calls| && u != t ==> r.calls[u] == s.calls[u]
  {
  }

  /** What a step of a call of getBlock leaves alone. */
  lemma ReadFrame(s: State, i: nat)
    requires i < |s.readers| && CacheOk(s.recent)
    ensures var r := ReadStep(s, i);
      && r.calls == s.calls && r.tables == s.tables && |r.readers| == |s.readers| && r.lookups == s.lookups
      && forall j :: 0 <= j < |s.readers| && j != i ==> r.readers[j] == s.readers[j]
  {
  }

  /** A step that makes the chain longer is the commit of the block of its call. */
  lemma NewIsOwn(s: State, blocks: seq<Block>, turn: Turn)
    requires Inv(s, blocks) && TurnStep(s, blocks, turn).tables.number > s.tables.number
    ensures TurnStep(s, blocks, turn).tables.number == s.tables.number + 1
    ensures turn.Commit? && turn.t < |blocks| == |TurnStep(s, blocks, turn).calls|
    ensures Put(TurnStep(s, blocks, turn), blocks, turn.t, s.tables.number + 1)
  {
    if turn.Commit? && turn.t < |blocks| {
      StepKeeps(s, turn.t, blocks, turn.choice);
      CommitIsOwn(s, turn.t, blocks, turn.choice);
    } else if turn.Read? && turn.i < |s.readers| {
      ReadStepKeeps(s, turn.i, blocks);
    } else if turn.Search? && turn.i < |s.lookups| {
      LookupStepKeeps(s, turn.i, blocks);
    }
  }

  lemma CommitIsOwn(s: State, t: nat, blocks: seq<Block>, c: Choice)
    requires Inv(s, blocks) && t < |blocks| && s.calls[t].TablesWritten? && !c.dbFails
    ensures var r := Step(s, t, blocks[t], c);
      r.tables.number == s.tables.number + 1 && |r.calls| == |blocks| && Put(r, blocks, t, s.tables.number + 1)
  {
    ReadyToWrite(s, t, blocks[t], blocks);
    WrittenChain(s.tables, blocks[t], s.calls[t].context.txs);
  }

  lemma {:induction false} RunAccounted(s: State, blocks: seq<Block>, schedule: seq<Turn>, base: int)
    requires Inv(s, blocks) && Accounted(s, blocks, base)
    ensures Accounted(Run(s, blocks, schedule), blocks, base)
    decreases |schedule|
  {
    if schedule == [] {
    } else {
      TurnKeeps(s, blocks, schedule[0]);
      TurnAccounted(s, blocks, schedule[0], base);
      RunAccounted(TurnStep(s, blocks, schedule[0]), blocks, schedule[1..], base);
    }
  }

  /** No call stands between dbCommit and the update of the number. */
  predicate NoneCommitted(s: State) {
    forall t :: 0 <= t < |s.calls| ==> !s.calls[t].Committed?
  }

  lemma NumberIsBehind(s: State, blocks: seq<Block>)
    requires Inv(s, blocks)
    ensures Number(s) == s.tables.number <==> NoneCommitted(s)
    ensures Number(s) == s.tables.number || Number(s) == s.tables.number - 1
  {
    if t :| 0 <= t < |s.calls| && s.calls[t].Committed? {
      assert Inside(s.calls[t]) && Knows(s, t, blocks[t]);
    }
  }

  /** Between dbCommit and the update of the number, a transaction that is new with the block is entered and cannot be
      found. */
  lemma NewTxIsHidden(s: State, t: nat, blocks: seq<Block>, c: Choice, k: nat)
    requires Inv(s, blocks) && t < |s.calls| && s.calls[t].TablesWritten? && !c.dbFails
    requires k < |blocks[t].txs| && blocks[t].txs[k].hash !in s.tables.txs
    ensures var s', h := Step(s, t, blocks[t], c), blocks[t].txs[k].hash;
      && TxNow(s', h) == None && GetTxByHash(s'.tables, h).Some?
      && (|blocks[t].txs| == 1 ==> GetTxByHash(s'.tables, h) == Some(blocks[t].txs[0]))
  {
    ReadyToWrite(s, t, blocks[t], blocks);
    assert Knows(s, t, blocks[t]);
    WrittenTxIsEntered(s.tables, blocks[t], s.calls[t].context.txs, k);
  }

  /** The chain invariant: after any interleaving of calls, with any failures of the tables and the database, the tables
      hold a chain that continues the one they held before, with the right counts; every block whose commit returned OK
      is in it, at its own height; every new block is there because of a call, none because of a failed one. number() is
      the height of that chain except while a call stands between dbCommit and the update of the number, and a
      transaction is found exactly up to number(). */
  lemma ChainSurvives(s: State, blocks: seq<Block>, schedule: seq<Turn>)
    requires Init(s, blocks)
    ensures Inv(s, blocks)
    ensures var r := Run(s, blocks, schedule);
      && ChainOk(r.tables) && Extends(s.tables, r.tables) && Accounted(r, blocks, s.tables.number)
      && Count(r.tables.total) == |TxPlaces(r.tables, r.tables.number)|
      && Count(r.tables.failed) == |FailedPlaces(r.tables, r.tables.number)|
      && (Number(r) == r.tables.number <==> NoneCommitted(r)) && FoundWithinNumber(r)
      && forall t :: 0 <= t < |blocks| && r.calls[t] == Returned(OK) ==> InChain(r.tables, blocks[t])
  {
    InitInv(s, blocks);
    RunExtends(s, blocks, schedule);
    RunAccounted(s, blocks, schedule, s.tables.number);
    var r := Run(s, blocks, schedule);
    CountsOfChain(r.tables);
    NumberIsBehind(r, blocks);
    CommittedTxIsFound(r);
    forall t | 0 <= t < |blocks| && r.calls[t] == Returned(OK) ensures InChain(r.tables, blocks[t]) {
      assert Knows(r, t, blocks[t]);
    }
  }

  /** Calls for different blocks of one height do not both return OK. */
  lemma OneWinner(s: State, blocks: seq<Block>, schedule: seq<Turn>, t: nat, u: nat)
    requires Init(s, blocks) && t < |blocks| && u < |blocks| && blocks[t].number == blocks[u].number
    ensures Inv(s, blocks)
    ensures var r := Run(s, blocks, schedule);
      r.calls[t] == Returned(OK) && r.calls[u] == Returned(OK) ==> blocks[t] == blocks[u]
  {
    ChainSurvives(s, blocks, schedule);
  }

  /** What a reader may answer, given what was stored at first. */
  ghost predicate MayAnswer(first: Tables, s: State, r: Reader) {
    r.Answered? ==>
      match r.answer
      case Some(b) => r.h in s.tables.blocks && s.tables.blocks[r.h] == b && b.hash == r.h
      case None => r.h !in first.blocks
  }

  lemma {:induction false} RunAnswers(first: Tables, s: State, blocks: seq<Block>, schedule: seq<Turn>, i: nat)
    requires Inv(s, blocks) && Extends(first, s.tables) && i < |s.readers| && MayAnswer(first, s, s.readers[i])
    ensures |Run(s, blocks, schedule).readers| == |s.readers|
    ensures var r := Run(s, blocks, schedule); MayAnswer(first, r, r.readers[i])
    decreases |schedule|
  {
    if schedule == [] {
    } else {
      var s' := TurnStep(s, blocks, schedule[0]);
      TurnAnswers(first, s, blocks, schedule[0], i);
      RunAnswers(first, s', blocks, schedule[1..], i);
    }
  }

  lemma TurnAnswers(first: Tables, s: State, blocks: seq<Block>, turn: Turn, i: nat)
    requires Inv(s, blocks) && Extends(first, s.tables) && i < |s.readers| && MayAnswer(first, s, s.readers[i])
    ensures var s' := TurnStep(s, blocks, turn);
      && Inv(s', blocks) && Extends(first, s'.tables) && |s'.readers| == |s.readers|
      && MayAnswer(first, s', s'.readers[i])
  {
    TurnKeeps(s, blocks, turn);
    var s' := TurnStep(s, blocks, turn);
    ExtendsTransitive(first, s.tables, s'.tables);
    OtherReaders(s, blocks, turn, i);
    StoredAnswer(s', blocks, i);
    if turn == Read(i) { NoAnswer(s, blocks, i); }
  }

  lemma NoAnswer(s: State, blocks: seq<Block>, i: nat)
    requires Inv(s, blocks) && i < |s.readers|
    ensures var r := ReadStep(s, i).readers[i];
      r.Answered? && r.answer.None? ==> r == s.readers[i] || r.h !in s.tables.blocks
  {
    ReadStepKeeps(s, i, blocks);
  }

  lemma StoredAnswer(s: State, blocks: seq<Block>, i: nat)
    requires Inv(s, blocks) && i < |s.readers|
    ensures ReaderOk(s.tables, s.readers[i])
    ensures forall h :: h in s.tables.blocks ==> s.tables.blocks[h].hash == h
  {
  }

  lemma OtherReaders(s: State, blocks: seq<Block>, turn: Turn, i: nat)
    requires Inv(s, blocks) && i < |s.readers|
    ensures |TurnStep(s, blocks, turn).readers| == |s.readers|
    ensures turn != Read(i) ==> TurnStep(s, blocks, turn).readers[i] == s.readers[i]
  {
    if turn.Commit? && turn.t < |blocks| {
      StepFrame(s, turn.t, blocks[turn.t], turn.choice);
    } else if turn.Read? && turn.i < |s.readers| {
      ReadFrame(s, turn.i);
    } else if turn.Search? && turn.i < |s.lookups| {
      LookupFrame(s, turn.i);
    }
  }

  /** Reading is right whatever the cache does: a block that getBlock returns is the stored one with that hash, and it
      returns none only for a hash that was not stored at first. */
  lemma ReadsAreRight(s: State, blocks: seq<Block>, schedule: seq<Turn>, i: nat)
    requires Init(s, blocks) && i < |s.readers|
    ensures Inv(s, blocks) && |Run(s, blocks, schedule).readers| == |s.readers|
    ensures var r := Run(s, blocks, schedule); MayAnswer(s.tables, r, r.readers[i])
  {
    InitInv(s, blocks);
    RunAnswers(s.tables, s, blocks, schedule, i);
  }
}
