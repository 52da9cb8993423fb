/** What concurrent calls of getTxByHash return (libblockchain/BlockChainImp.cpp). */
module TxSearch {
  import opened Prelude
  import opened Blocks
  import opened BlockCache
  import opened Chain
  import opened ChainRuns

  /** What a call of getTxByHash may return, given what was stored at first: a transaction of the chain with that hash;
      nothing only if the hash was not entered at first, or a block that came later has a transaction with it. */
  ghost predicate MayResolve(first: Tables, s: State, l: Lookup) {
    l.Resolved? ==>
      match l.answer
      case Some(tx) => tx.hash == l.h && Stands(s.tables, l.h, tx)
      case None => l.h !in first.txs || StandsAbove(s.tables, first.number, l.h)
  }

  lemma MayResolveKept(first: Tables, s: State, s': State, l: Lookup)
    requires MayResolve(first, s, l) && Extends(s.tables, s'.tables)
    ensures MayResolve(first, s', l)
  {
    if l.Resolved? && l.answer.Some? {
      var i, k :| StandsAt(s.tables, l.h, i, k) && BlockAt(s.tables, i).txs[k] == l.answer.value;
      StandsAtKept(s.tables, s'.tables, l.h, i, k);
    } else if l.Resolved? && l.h in first.txs {
      var i, k :| i > first.number && StandsAt(s.tables, l.h, i, k);
      StandsAtKept(s.tables, s'.tables, l.h, i, k);
    }
  }

  /** number() never falls. */
  lemma NumberGrows(s: State, blocks: seq<Block>, turn: Turn)
    requires Inv(s, blocks)
    ensures Number(TurnStep(s, blocks, turn)) >= Number(s)
  {
    match turn
    case Commit(t, c) =>
      if t < |blocks| { assert Knows(s, t, blocks[t]); assert Inside(s.calls[t]) ==> s.lock == Some(t); }
    case Read(i) => if i < |s.readers| { ReadFrame(s, i); }
    case Search(i) => if i < |s.lookups| { LookupFrame(s, i); }
  }

  lemma SearchResolves(first: Tables, s: State, i: nat)
    requires RecentOk(s) && ChainOk(s.tables) && ChainOk(first) && Extends(first, s.tables) && first.number <= Number(s)
    requires i < |s.lookups| && LookupOk(s.tables, s.lookups[i]) && MayResolve(first, s, s.lookups[i])
    ensures i < |LookupStep(s, i).lookups| && MayResolve(first, LookupStep(s, i), LookupStep(s, i).lookups[i])
  {
    var h := s.lookups[i].h;
    LookupStepOk(s, i);
    LookupFrame(s, i);
    var l := LookupStep(s, i).lookups[i];
    if l.Resolved? && l.answer.None? {
      ResolvedToNone(s, i);
      if h in first.txs { EntryKept(first, s.tables, h); }
    }
  }

  lemma EntryKept(s: Tables, t: Tables, h: TxHash)
    requires ChainOk(s) && ChainOk(t) && Extends(s, t) && h in s.txs
    ensures h in t.txs
  {
    EntryStands(s, h);
    StandsAtKept(s, t, h, s.txs[h].0, s.txs[h].1);
    EntryStands(t, h);
  }

  lemma TurnGoesOn(first: Tables, s: State, blocks: seq<Block>, turn: Turn)
    requires Inv(s, blocks) && Extends(first, s.tables) && first.number <= Number(s)
    ensures var s' := TurnStep(s, blocks, turn);
      Inv(s', blocks) && Extends(first, s'.tables) && first.number <= Number(s') && Extends(s.tables, s'.tables)
  {
    TurnKeeps(s, blocks, turn);
    NumberGrows(s, blocks, turn);
    ExtendsTransitive(first, s.tables, TurnStep(s, blocks, turn).tables);
  }

  lemma TurnResolves(first: Tables, s: State, blocks: seq<Block>, turn: Turn, i: nat, s': State)
    requires Inv(s, blocks) && ChainOk(first) && Extends(first, s.tables) && first.number <= Number(s)
    requires i < |s.lookups| && MayResolve(first, s, s.lookups[i])
    requires s' == TurnStep(s, blocks, turn) && Extends(s.tables, s'.tables)
    ensures |s'.lookups| == |s.lookups| && MayResolve(first, s', s'.lookups[i])
  {
    OtherLookups(s, blocks, turn, i);
    if turn == Search(i) {
      LookupIsOk(s, blocks, i);
      SearchResolves(first, s, i);
    } else {
      MayResolveKept(first, s, s', s.lookups[i]);
    }
  }

  lemma LookupIsOk(s: State, blocks: seq<Block>, i: nat)
    requires Inv(s, blocks) && i < |s.lookups|
    ensures RecentOk(s) && ChainOk(s.tables) && LookupOk(s.tables, s.lookups[i])
  {
  }

  lemma OtherLookups(s: State, blocks: seq<Block>, turn: Turn, i: nat)
    requires Inv(s, blocks) && i < |s.lookups|
    ensures |TurnStep(s, blocks, turn).lookups| == |s.lookups|
    ensures turn != Search(i) ==> TurnStep(s, blocks, turn).lookups[i] == s.lookups[i]
  {
    match turn
    case Commit(t, c) => if t < |blocks| { StepFrame(s, t, blocks[t], c); }
    case Read(j) => if j < |s.readers| { ReadFrame(s, j); }
    case Search(j) => if j < |s.lookups| { LookupFrame(s, j); }
  }

  lemma {:induction false} RunResolves(first: Tables, s: State, blocks: seq<Block>, schedule: seq<Turn>, i: nat)
    requires Inv(s, blocks) && ChainOk(first) && Extends(first, s.tables) && first.number <= Number(s)
    requires i < |s.lookups| && MayResolve(first, s, s.lookups[i])
    ensures |Run(s, blocks, schedule).lookups| == |s.lookups|
    ensures var r := Run(s, blocks, schedule); MayResolve(first, r, r.lookups[i])
    decreases |schedule|
  {
    if schedule == [] {
    } else {
      var s' := TurnStep(s, blocks, schedule[0]);
      TurnGoesOn(first, s, blocks, schedule[0]);
      TurnResolves(first, s, blocks, schedule[0], i, s');
      RunResolves(first, s', blocks, schedule[1..], i);
    }
  }

  /** Searching is right: what getTxByHash returns is a transaction of the chain with that hash. Nothing comes back only
      for a hash that was not entered at first, or that stands, too, in a block that came later. */
  lemma SearchesAreRight(s: State, blocks: seq<Block>, schedule: seq<Turn>, i: nat)
    requires Init(s, blocks) && i < |s.lookups|
    ensures Inv(s, blocks) && |Run(s, blocks, schedule).lookups| == |s.lookups|
    ensures var r := Run(s, blocks, schedule); MayResolve(s.tables, r, r.lookups[i])
  {
    InitInv(s, blocks);
    RunResolves(s.tables, s, blocks, schedule, i);
  }

  /** Call i of getTxByHash makes so many steps, and no other call does. */
  function SearchAlone(s: State, i: nat, steps: nat): (r: State)
    requires i < |s.lookups| && CacheOk(s.recent)
    ensures i < |r.lookups| && CacheOk(r.recent)
  {
    if steps == 0 then s else LookupStep(SearchAlone(s, i, steps - 1), i)
  }

  /** In state r the call stands at l, and nothing that it reads has changed since s. */
  ghost predicate Stays(s: State, r: State, i: nat, l: Lookup) {
    && i < |r.lookups| && r.lookups[i] == l && LookupOk(s.tables, l)
    && r.tables == s.tables && Number(r) == Number(s) && RecentOk(r)
  }

  lemma NextStays(s: State, r: State, i: nat, l: Lookup, l': Lookup)
    requires ChainOk(s.tables) && Stays(s, r, i, l) && LookupStep(r, i).lookups[i] == l'
    ensures Stays(s, LookupStep(r, i), i, l')
  {
    LookupStepOk(r, i);
    LookupFrame(r, i);
  }

  ghost predicate ComesTo(s: State, i: nat, l: Lookup)
    requires i < |s.lookups| && CacheOk(s.recent)
  {
    exists steps :: Stays(s, SearchAlone(s, i, steps), i, l)
  }

  /** The next step of the call, whatever is in the cache by then. */
  lemma ComesOn(s: State, i: nat, l: Lookup, l': Lookup)
    requires i < |s.lookups| && CacheOk(s.recent) && ChainOk(s.tables) && ComesTo(s, i, l)
    requires forall r :: Stays(s, r, i, l) ==> LookupStep(r, i).lookups[i] == l'
    ensures ComesTo(s, i, l')
  {
    var r, next := ComesNext(s, i, l);
  }

  lemma ComesNext(s: State, i: nat, l: Lookup) returns (r: State, l': Lookup)
    requires i < |s.lookups| && CacheOk(s.recent) && ChainOk(s.tables) && ComesTo(s, i, l)
    ensures Stays(s, r, i, l) && i < |LookupStep(r, i).lookups| && l' == LookupStep(r, i).lookups[i]
    ensures ComesTo(s, i, l')
  {
    var k: nat :| Stays(s, SearchAlone(s, i, k), i, l);
    r := SearchAlone(s, i, k);
    LookupFrame(r, i);
    l' := LookupStep(r, i).lookups[i];
    NextStays(s, r, i, l, l');
    var n := k + 1;
    assert Stays(s, SearchAlone(s, i, n), i, l');
  }

  lemma AfterSearching(s: State, i: nat, h: TxHash)
    requires i < |s.lookups| && CacheOk(s.recent) && ChainOk(s.tables) && ComesTo(s, i, Searching(h))
    ensures ComesTo(s, i,
                    if h in s.tables.txs then EntryRead(h, s.tables.txs[h].0, s.tables.txs[h].1) else Resolved(h, None))
  {
    ComesOn(s, i, Searching(h),
            if h in s.tables.txs then EntryRead(h, s.tables.txs[h].0, s.tables.txs[h].1) else Resolved(h, None));
  }

  lemma AfterEntryRead(s: State, i: nat, h: TxHash, n: int, k: nat)
    requires i < |s.lookups| && CacheOk(s.recent) && ChainOk(s.tables) && ComesTo(s, i, EntryRead(h, n, k))
    ensures ComesTo(s, i, if n > Number(s) then Resolved(h, None) else InRange(h, n, k))
  {
    ComesOn(s, i, EntryRead(h, n, k), if n > Number(s) then Resolved(h, None) else InRange(h, n, k));
  }

  lemma AfterInRange(s: State, i: nat, h: TxHash, n: int, k: nat)
    requires i < |s.lookups| && CacheOk(s.recent) && ChainOk(s.tables) && ComesTo(s, i, InRange(h, n, k))
    requires n <= Number(s)
    ensures ComesTo(s, i, StillInRange(h, n, k))
  {
    ComesOn(s, i, InRange(h, n, k), StillInRange(h, n, k));
  }

  lemma AfterStillInRange(s: State, i: nat, h: TxHash, n: int, k: nat)
    requires i < |s.lookups| && CacheOk(s.recent) && ChainOk(s.tables) && ComesTo(s, i, StillInRange(h, n, k))
    requires StandsAt(s.tables, h, n, k)
    ensures ComesTo(s, i, Reading(h, n, k, Asked(s.tables.hashes[n])))
  {
    ComesOn(s, i, StillInRange(h, n, k), Reading(h, n, k, Asked(s.tables.hashes[n])));
  }

  /** The block is cached, or not. */
  lemma AfterAsked(s: State, i: nat, h: TxHash, n: int, k: nat)
    requires i < |s.lookups| && CacheOk(s.recent) && ChainOk(s.tables) && StandsAt(s.tables, h, n, k)
    requires ComesTo(s, i, Reading(h, n, k, Asked(s.tables.hashes[n])))
    ensures ComesTo(s, i, Resolved(h, Some(BlockAt(s.tables, n).txs[k])))
         || ComesTo(s, i, Reading(h, n, k, Missed(s.tables.hashes[n])))
  {
    var r, next := ComesNext(s, i, Reading(h, n, k, Asked(s.tables.hashes[n])));
    AskedStep(r, i, h, n, k);
  }

  lemma AskedStep(s: State, i: nat, h: TxHash, n: int, k: nat)
    requires i < |s.lookups| && RecentOk(s) && StandsAt(s.tables, h, n, k)
    requires s.lookups[i] == Reading(h, n, k, Asked(s.tables.hashes[n]))
    ensures var l := LookupStep(s, i).lookups[i];
      l == Resolved(h, Some(BlockAt(s.tables, n).txs[k])) || l == Reading(h, n, k, Missed(s.tables.hashes[n]))
  {
  }

  lemma AfterMissed(s: State, i: nat, h: TxHash, n: int, k: nat)
    requires i < |s.lookups| && CacheOk(s.recent) && ChainOk(s.tables) && StandsAt(s.tables, h, n, k)
    requires ComesTo(s, i, Reading(h, n, k, Missed(s.tables.hashes[n])))
    ensures ComesTo(s, i, Reading(h, n, k, Found(s.tables.hashes[n], BlockAt(s.tables, n))))
  {
    ComesOn(s, i, Reading(h, n, k, Missed(s.tables.hashes[n])),
            Reading(h, n, k, Found(s.tables.hashes[n], BlockAt(s.tables, n))));
  }

  lemma AfterFound(s: State, i: nat, h: TxHash, n: int, k: nat)
    requires i < |s.lookups| && CacheOk(s.recent) && ChainOk(s.tables) && StandsAt(s.tables, h, n, k)
    requires ComesTo(s, i, Reading(h, n, k, Found(s.tables.hashes[n], BlockAt(s.tables, n))))
    ensures ComesTo(s, i, Resolved(h, Some(BlockAt(s.tables, n).txs[k])))
  {
    ComesOn(s, i, Reading(h, n, k, Found(s.tables.hashes[n], BlockAt(s.tables, n))),
            Resolved(h, Some(BlockAt(s.tables, n).txs[k])));
  }

  /** A call of getTxByHash that nothing interrupts returns TxNow. */
  lemma SearchedAlone(s: State, i: nat, h: TxHash)
    requires i < |s.lookups| && RecentOk(s) && ChainOk(s.tables) && s.lookups[i] == Searching(h)
    ensures ComesTo(s, i, Resolved(h, TxNow(s, h)))
  {
    ComesFirst(s, i, h);
    AfterSearching(s, i, h);
    if h in s.tables.txs { SearchedEntry(s, i, h, s.tables.txs[h].0, s.tables.txs[h].1); }
  }

  lemma ComesFirst(s: State, i: nat, h: TxHash)
    requires i < |s.lookups| && RecentOk(s) && s.lookups[i] == Searching(h)
    ensures ComesTo(s, i, Searching(h))
  {
    assert Stays(s, SearchAlone(s, i, 0), i, Searching(h));
  }

  lemma SearchedEntry(s: State, i: nat, h: TxHash, n: int, k: nat)
    requires i < |s.lookups| && CacheOk(s.recent) && ChainOk(s.tables) && h in s.tables.txs && s.tables.txs[h] == (n, k)
    requires ComesTo(s, i, EntryRead(h, n, k))
    ensures ComesTo(s, i, Resolved(h, TxNow(s, h)))
  {
    TxNowIs(s, h, n, k);
    AfterEntryRead(s, i, h, n, k);
    if n <= Number(s) { SearchedBlock(s, i, h, n, k); }
  }

  lemma TxNowIs(s: State, h: TxHash, n: int, k: nat)
    requires ChainOk(s.tables) && h in s.tables.txs && s.tables.txs[h] == (n, k)
    ensures StandsAt(s.tables, h, n, k)
    ensures TxNow(s, h) == if n > Number(s) then None else Some(BlockAt(s.tables, n).txs[k])
  {
    EntryStands(s.tables, h);
  }

  lemma SearchedBlock(s: State, i: nat, h: TxHash, n: int, k: nat)
    requires i < |s.lookups| && CacheOk(s.recent) && ChainOk(s.tables) && StandsAt(s.tables, h, n, k)
    requires n <= Number(s) && ComesTo(s, i, InRange(h, n, k))
    ensures ComesTo(s, i, Resolved(h, Some(BlockAt(s.tables, n).txs[k])))
  {
    AfterInRange(s, i, h, n, k);
    AfterStillInRange(s, i, h, n, k);
    AfterAsked(s, i, h, n, k);
    if !ComesTo(s, i, Resolved(h, Some(BlockAt(s.tables, n).txs[k]))) {
      AfterMissed(s, i, h, n, k);
      AfterFound(s, i, h, n, k);
    }
  }
}
