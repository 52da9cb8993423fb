/**
 What parallel execution promises: a transaction runs once, after everything it conflicts with, and in every
 interleaving the store and the receipts at the end are those of executing the transactions one after the other.
 */
module ParallelExecution {
  import opened Prelude
  import opened TxGraph
  import opened Scheduler
  import opened ScheduleSafety
  import opened Serializability
  import opened Liveness

  /** Each vertex is in exactly one place: waiting for predecessors, in the ready queue (once), in the
      hand of one worker, or consumed. */
  lemma OnePlace(b: Block, s: State, v: ID)
    requires Safe(b, s) && v < |b.txs|
    ensures (if s.inDegree[v] > 0 then 1 else 0) + multiset(s.queue)[v] + Sum(s.workers, Holding(v))
          + (if v in s.consumed then 1 else 0) == 1
  {
    assert Tokens(s, v) == if s.inDegree[v] == 0 then 1 else 0;
  }

  /** A transaction in progress has all its ancestors in the graph executed, has not been executed
      before, and is in progress at no other worker. */
  lemma RunsOnceAfterAncestors(b: Block, s: State, w: nat)
    requires Safe(b, s) && w < |s.workers| && s.workers[w].Running?
    ensures s.workers[w].id !in s.receipts
    ensures forall u: ID :: u != s.workers[w].id && Reaches(b.graph, u, s.workers[w].id) ==> u in s.receipts
    ensures forall x :: 0 <= x < |s.workers| && x != w && s.workers[x].Running? ==> s.workers[x].id != s.workers[w].id
  {
    var t := s.workers[w].id;
    InHandOnce(s, w, t);
    assert WorkerOk(s, s.workers[w]);
    forall u: ID | u != t && Reaches(b.graph, u, t)
      ensures u in s.receipts
    {
      AncestorsExecuted(b, s, u, t);
    }
    forall x | 0 <= x < |s.workers| && x != w && s.workers[x].Running?
      ensures s.workers[x].id != t
    {
      assert InHand(s.workers[x], t) == 0;
    }
  }

  /** A receipt, once written, is never written again. */
  lemma ReceiptsStay(b: Block, s: State, w: nat, i: ID)
    requires Safe(b, s) && w < |s.workers| && i in s.receipts
    ensures i in Step(b, s, w).receipts && Step(b, s, w).receipts[i] == s.receipts[i]
  {
    if s.workers[w].Running? {
      assert WorkerOk(s, s.workers[w]);
      RunningAdds(b, s, w);
    } else {
      OthersKeep(b, s, w);
    }
  }

  lemma RunningAdds(b: Block, s: State, w: nat)
    requires Shape(b, s) && w < |s.workers| && s.workers[w].Running?
    ensures forall i :: i in s.receipts && i != s.workers[w].id ==>
              i in Step(b, s, w).receipts && Step(b, s, w).receipts[i] == s.receipts[i]
  {
  }

  lemma OthersKeep(b: Block, s: State, w: nat)
    requires Shape(b, s) && w < |s.workers| && !s.workers[w].Running?
    ensures Step(b, s, w).receipts == s.receipts
  {
  }

  /** The store and the receipts are those of executing the transactions in order, one after the other. */
  ghost predicate IsSerial(b: Block, s: State) {
    && s.store == SerialStore(b.txs, b.s0, |b.txs|)
    && s.receipts.Keys == Indices(|b.txs|)
    && forall i :: 0 <= i < |b.txs| ==> i in s.receipts && s.receipts[i] == SerialReceipt(b.txs, b.s0, i)
  }

  lemma FinishedIsSerial(b: Block, s: State)
    requires Ordered(b) && Safe(b, s) && Faithful(b, s) && s.exeCnt >= |b.txs|
    ensures IsSerial(b, s)
  {
    FinishedMeansDone(b, s);
    DoneIsSerial(b, s);
  }

  lemma DoneIsSerial(b: Block, s: State)
    requires FieldsSerial(b, s) && ReceiptsSerial(b, s) && s.receipts.Keys == Indices(|b.txs|)
    requires forall w :: 0 <= w < |s.workers| ==> !s.workers[w].Running?
    ensures s.store == SerialStore(b.txs, b.s0, |b.txs|)
    ensures forall i :: 0 <= i < |b.txs| ==> i in s.receipts && s.receipts[i] == SerialReceipt(b.txs, b.s0, i)
  {
    forall k
      ensures Lookup(s.store, k) == Lookup(SerialStore(b.txs, b.s0, |b.txs|), k)
    {
      assert Settled(b, s, k, |b.txs|);
    }
    SameStore(s.store, SerialStore(b.txs, b.s0, |b.txs|));
  }

  lemma ExitedMeansFinished(b: Block, threads: nat, schedule: seq<nat>, w: nat)
    requires BlockOk(b) && forall i :: 0 <= i < |schedule| ==> schedule[i] < threads
    requires w < threads == |Reached(b, threads, schedule).workers| && Reached(b, threads, schedule).workers[w].Exited?
    ensures Reached(b, threads, schedule).exeCnt >= |b.txs|
  {
    BlocksAreOrdered(b);
    InitShape(b, threads);
    ExitedRun(b, Init(b, threads), schedule, w);
  }

  /** Main theorem. In every interleaving of any number of workers, once some worker has left the loop the
      store and all receipts are those of the serial execution. */
  lemma SerializableRuns(b: Block, threads: nat, schedule: seq<nat>, w: nat)
    requires BlockOk(b) && forall i :: 0 <= i < |schedule| ==> schedule[i] < threads
    requires w < threads == |Reached(b, threads, schedule).workers| && Reached(b, threads, schedule).workers[w].Exited?
    ensures IsSerial(b, Reached(b, threads, schedule))
  {
    var s := Reached(b, threads, schedule);
    ReachedKeeps(b, threads, schedule);
    ExitedMeansFinished(b, threads, schedule, w);
    BlocksAreOrdered(b);
    FinishedIsSerial(b, s);
  }

  /** Blocks of up to 2^32 - 2 transactions are covered. */
  lemma BlocksInNumbers(b: Block)
    ensures BlockOk(b) <==>
      |b.txs| < 0xffff_ffff && b.graph == ConflictGraph(CriticalsOf(b.txs)) && KeepToCriticals(b)
  {
  }

  /** The work that is left when nothing has been done. */
  ghost function FirstPotential(b: Block, threads: nat): nat
    requires BlockOk(b)
  {
    BlocksAreOrdered(b);
    Potential(b, Init(b, threads))
  }

  /** Every fair run completes: after as many rounds as the initial potential and two more, every worker
      has left the loop, and the result is the serial one. */
  lemma FairRunsComplete(b: Block, threads: nat, rounds: seq<seq<nat>>)
    requires BlockOk(b) && threads > 0
    requires forall r :: 0 <= r < |rounds| ==> IsRound(rounds[r], threads)
    requires |rounds| >= FirstPotential(b, threads) + 2
    ensures forall i :: 0 <= i < |Flatten(rounds)| ==> Flatten(rounds)[i] < threads
    ensures var s := Reached(b, threads, Flatten(rounds));
      && |s.workers| == threads
      && (forall x :: 0 <= x < threads ==> s.workers[x].Exited?)
      && IsSerial(b, s)
  {
    BlocksAreOrdered(b);
    InitSafe(b, threads);
    RoundsComplete(b, Init(b, threads), rounds);
    ReachedKeeps(b, threads, Flatten(rounds));
    SerializableRuns(b, threads, Flatten(rounds), 0);
  }
}
