/**
 What the worker loop of parallelExecuteBlock can rely on: hasFinished is true only when every transaction
 has been executed and consumed, work is always available until then, and every schedule that keeps giving
 every worker turns ends with all workers out of the loop.
 */
module Liveness {
  import opened Prelude
  import opened TxGraph
  import opened Scheduler
  import opened ScheduleSafety
  import opened Serializability

  /** The transactions in progress. */
  function InProgress(ws: seq<Worker>): set<ID> {
    if ws == [] then {}
    else InProgress(ws[..|ws| - 1]) + if ws[|ws| - 1].Running? then {ws[|ws| - 1].id} else {}
  }

  ghost predicate RunsSome(ws: seq<Worker>, t: ID) {
    exists w :: 0 <= w < |ws| && ws[w].Running? && ws[w].id == t
  }

  lemma {:induction false} InProgressMembers(ws: seq<Worker>, t: ID)
    ensures t in InProgress(ws) <==> RunsSome(ws, t)
  {
    if ws == [] {
    } else {
      var front := ws[..|ws| - 1];
      InProgressMembers(front, t);
      if RunsSome(front, t) {
        var w :| 0 <= w < |front| && front[w].Running? && front[w].id == t;
        assert ws[w].Running? && ws[w].id == t;
      }
      if RunsSome(ws, t) {
        var w :| 0 <= w < |ws| && ws[w].Running? && ws[w].id == t;
        assert w < |front| ==> front[w].Running? && front[w].id == t;
      }
    }
  }

  lemma {:induction false} InProgressCount(ws: seq<Worker>)
    requires forall w, x :: 0 <= w < x < |ws| && ws[w].Running? && ws[x].Running? ==> ws[w].id != ws[x].id
    ensures |InProgress(ws)| == Sum(ws, IsRunning)
  {
    if ws == [] {
    } else {
      InProgressCount(ws[..|ws| - 1]);
      if ws[|ws| - 1].Running? { InProgressMembers(ws[..|ws| - 1], ws[|ws| - 1].id); }
    }
  }

  lemma InProgressDistinct(b: Block, s: State)
    requires Safe(b, s)
    ensures |InProgress(s.workers)| == Sum(s.workers, IsRunning)
    ensures forall t :: t in InProgress(s.workers) ==> t < |b.txs| && t !in s.receipts
  {
    forall w, x | 0 <= w < x < |s.workers| && s.workers[w].Running? && s.workers[x].Running?
      ensures s.workers[w].id != s.workers[x].id
    {
      InHandOnce(s, w, s.workers[w].id);
    }
    InProgressCount(s.workers);
    forall t: ID | t in InProgress(s.workers)
      ensures t < |b.txs| && t !in s.receipts
    {
      InProgressMembers(s.workers, t);
      var w :| 0 <= w < |s.workers| && s.workers[w].Running? && s.workers[w].id == t;
      assert WorkerOk(s, s.workers[w]);
    }
  }

  /** Executions never exceed the number of transactions, so neither 32-bit counter overflows. */
  lemma CountersBounded(b: Block, s: State)
    requires Safe(b, s)
    ensures s.exeCnt + Sum(s.workers, LocalCount) <= |b.txs|
    ensures s.totalConsume <= |b.txs|
    ensures |s.receipts| + Sum(s.workers, IsRunning) <= |b.txs|
  {
    InProgressDistinct(b, s);
    TwoParts(InProgress(s.workers), s.receipts.Keys, |b.txs|);
    SubsetSize(s.consumed, Indices(|b.txs|));
  }

  lemma TwoParts(a: set<ID>, c: set<ID>, n: nat)
    requires a !! c && forall i :: i in a || i in c ==> i < n
    ensures |a| + |c| <= n
  {
    SubsetSize(a + c, Indices(n));
  }

  lemma {:induction false} SubsetSize(a: set<ID>, c: set<ID>)
    requires a <= c
    ensures |a| <= |c| && (|a| == |c| ==> a == c)
  {
    assert c == a + (c - a);
  }

  lemma FinishedHands(b: Block, s: State)
    requires Safe(b, s) && s.exeCnt >= |b.txs|
    ensures forall w :: 0 <= w < |s.workers| ==> !s.workers[w].Running? && !s.workers[w].Consuming?
    ensures s.exeCnt == |b.txs| && s.receipts.Keys == Indices(|b.txs|)
  {
    CountersBounded(b, s);
    forall w | 0 <= w < |s.workers|
      ensures !s.workers[w].Running? && !s.workers[w].Consuming?
    {
      SumMember(s.workers, LocalCount, w);
      assert WorkerOk(s, s.workers[w]);
    }
    SumZero(s.workers, IsRunning);
    SubsetSize(s.receipts.Keys, Indices(|b.txs|));
  }

  /** hasFinished is sound: when m_exeCnt reaches the number of transactions, all have been executed and
      consumed and no worker is still at one. */
  lemma FinishedMeansDone(b: Block, s: State)
    requires Safe(b, s) && s.exeCnt >= |b.txs|
    ensures s.receipts.Keys == Indices(|b.txs|) && s.consumed == Indices(|b.txs|) && s.queue == []
    ensures forall w :: 0 <= w < |s.workers| ==> !s.workers[w].Running? && !s.workers[w].Consuming?
    ensures s.exeCnt == s.totalConsume == |b.txs|
  {
    FinishedHands(b, s);
    QueueIsEmpty(b, s);
    forall v: ID | v < |b.txs| ensures v in s.consumed { ReceiptConsumed(b, s, v); }
    assert s.consumed == Indices(|b.txs|);
  }

  lemma ReceiptConsumed(b: Block, s: State, v: ID)
    requires Safe(b, s) && v < |b.txs| && s.receipts.Keys == Indices(|b.txs|) && s.queue == []
    requires forall w :: 0 <= w < |s.workers| ==> !s.workers[w].Running? && !s.workers[w].Consuming?
    ensures v in s.consumed
  {
    assert v in s.receipts.Keys;
    ExecutedConsumed(s, v);
  }

  lemma QueueIsEmpty(b: Block, s: State)
    requires Safe(b, s) && s.receipts.Keys == Indices(|b.txs|)
    ensures s.queue == []
  {
    assert s.queue != [] ==> Unstarted(s, s.queue[0]);
  }

  /** A released vertex that is neither queued nor in any worker's hand has been consumed. */
  lemma ExecutedConsumed(s: State, v: ID)
    requires TokensOk(s) && v < |s.inDegree| && s.inDegree[v] == 0 && s.queue == []
    requires forall w :: 0 <= w < |s.workers| ==> !s.workers[w].Running? && !s.workers[w].Consuming?
    ensures v in s.consumed
  {
    assert Tokens(s, v) == 1;
    SumZero(s.workers, Holding(v));
  }

  /** A worker leaves only after seeing hasFinished, and the counter never goes back. */
  lemma {:induction false} ExitedRun(b: Block, s: State, schedule: seq<nat>, w: nat)
    requires Shape(b, s) && (forall i :: 0 <= i < |schedule| ==> schedule[i] < |s.workers|) && w < |s.workers|
    requires forall x :: 0 <= x < |s.workers| && s.workers[x].Exited? ==> s.exeCnt >= |b.txs|
    ensures Run(b, s, schedule).workers[w].Exited? ==> Run(b, s, schedule).exeCnt >= |b.txs|
    decreases |schedule|
  {
    if schedule == [] {
    } else {
      var s' := Step(b, s, schedule[0]);
      StepShape(b, s, schedule[0]);
      ExitedRun(b, s', schedule[1..], w);
    }
  }

  /** Work is available: while some transaction is unconsumed the queue is non-empty or some worker has a
      vertex in hand. */
  lemma WorkAvailable(b: Block, s: State) returns (w: nat)
    requires Safe(b, s) && s.totalConsume < |b.txs| && s.queue == []
    ensures w < |s.workers| && (s.workers[w].Running? || s.workers[w].Consuming?)
  {
    assert |Indices(|b.txs|)| == |b.txs|;
    var v := FirstMissing(s.consumed, |b.txs|);
    PendingNone(b, s, v);
    assert Tokens(s, v) == 1;
    w := SumPositive(s.workers, Holding(v));
  }

  lemma {:induction false} FirstMissing(c: set<ID>, n: nat) returns (v: ID)
    requires c != Indices(n) && forall i :: i in c ==> i < n
    ensures v < n && v !in c && forall i: ID :: i < v ==> i in c
    decreases n
  {
    assert (forall i: ID :: i < n ==> i in c) ==> c == Indices(n);
    v :| v < n && v !in c;
    while exists j: ID :: j < v && j !in c
      invariant v < n && v !in c
      decreases v
    {
      var j: ID :| j < v && j !in c;
      v := j;
    }
  }

  /** When every vertex below v is consumed, no decrement of v is outstanding. */
  lemma PendingNone(b: Block, s: State, v: ID)
    requires Safe(b, s) && v < |b.graph| && forall u: ID :: u < v ==> u in s.consumed
    ensures Pending(b.graph, s.applied, v, |b.graph|) == 0
  {
    forall u | 0 <= u < |b.graph| ensures EdgesLeft(b.graph[u], s.applied[u], v) == 0 { NotPending(b, s, v, u); }
    NoneLeft(b.graph, s.applied, v, |b.graph|);
  }

  lemma {:induction false} NoneLeft(g: Graph, applied: seq<nat>, v: ID, k: nat)
    requires k <= |g| == |applied| && forall u :: 0 <= u < |g| ==> EdgesLeft(g[u], applied[u], v) == 0
    ensures Pending(g, applied, v, k) == 0
  {
    if k == 0 {
    } else {
      NoneLeft(g, applied, v, k - 1);
    }
  }

  lemma NotPending(b: Block, s: State, v: ID, u: ID)
    requires Safe(b, s) && v < |b.graph| && u < |b.graph| && (u < v ==> u in s.consumed)
    ensures EdgesLeft(b.graph[u], s.applied[u], v) == 0
  {
    if u >= v { assert v !in b.graph[u][s.applied[u]..]; }
  }

  /** Upper bound on the gas of every transaction. */
  function MaxGas(txs: seq<Tx>): (g: nat)
    ensures forall i :: 0 <= i < |txs| ==> txs[i].gas <= g
  {
    if txs == [] then 0
    else
      var front, last := MaxGas(txs[..|txs| - 1]), txs[|txs| - 1].gas;
      if front < last then last else front
  }

  function Full(b: Block, v: ID): nat
    requires v < |b.txs| == |b.graph|
  {
    b.txs[v].gas + 2 * |b.graph[v]| + 3
  }

  function Unexecuted(b: Block, done: set<ID>, n: nat): nat
    requires n <= |b.txs| == |b.graph|
  {
    if n == 0 then 0 else Unexecuted(b, done, n - 1) + if n - 1 in done then 0 else Full(b, n - 1)
  }

  function Min(x: nat, y: nat): nat { if x < y then x else y }

  function WorkLeft(b: Block, w: Worker): nat {
    var g := MaxGas(b.txs);
    match w
    case Running(_, id, seen) => if id < |b.txs| then g - Min(|seen|, b.txs[id].gas) else 0
    case Consuming(_, id, e, _, push) =>
      if id < |b.graph| && e <= |b.graph[id]| then
        g + 2 + 2 * (|b.graph[id]| - e) + (if push.Some? then 1 else 0)
      else 0
    case _ => g + 1
  }

  function Working(b: Block): Worker -> nat {
    w => WorkLeft(b, w)
  }

  /** A bound on the steps that are still to advance the block. */
  function Potential(b: Block, s: State): nat
    requires |b.txs| == |b.graph|
  {
    Unexecuted(b, s.receipts.Keys, |b.txs|) + Sum(s.workers, Working(b))
  }

  ghost predicate Holder(w: Worker) {
    w.Running? || w.Consuming?
  }

  /** Steps that advance the block, as opposed to polling. */
  ghost predicate Productive(s: State, w: nat)
    requires w < |s.workers|
  {
    Holder(s.workers[w]) || (s.workers[w].Popping? && s.queue != [])
  }

  lemma {:induction false} UnexecutedLess(b: Block, done: set<ID>, t: ID, n: nat)
    requires n <= |b.txs| == |b.graph| && t < |b.txs| && t !in done
    ensures Unexecuted(b, done, n) == Unexecuted(b, done + {t}, n) + if t < n then Full(b, t) else 0
  {
    if n == 0 {
    } else {
      UnexecutedLess(b, done, t, n - 1);
    }
  }

  lemma WaitingWork(b: Block, s: State, w: nat, s': State)
    requires Shape(b, s) && w < |s.workers| && s' == Step(b, s, w) && !Holder(s.workers[w])
    ensures |s'.workers| == |s.workers| && s'.workers == s.workers[w := s'.workers[w]] && s'.receipts == s.receipts
    ensures WorkLeft(b, s'.workers[w]) <= WorkLeft(b, s.workers[w])
    ensures Productive(s, w) ==> WorkLeft(b, s'.workers[w]) < WorkLeft(b, s.workers[w])
  {
  }

  lemma ConsumingWork(b: Block, s: State, w: nat, s': State)
    requires Shape(b, s) && w < |s.workers| && s' == Step(b, s, w) && s.workers[w].Consuming?
    ensures |s'.workers| == |s.workers| && s'.workers == s.workers[w := s'.workers[w]] && s'.receipts == s.receipts
    ensures WorkLeft(b, s'.workers[w]) < WorkLeft(b, s.workers[w])
  {
  }

  lemma RunningWork(b: Block, s: State, w: nat, s': State)
    requires Shape(b, s) && w < |s.workers| && s' == Step(b, s, w) && s.workers[w].Running?
    ensures |s'.workers| == |s.workers| && s'.workers == s.workers[w := s'.workers[w]]
    ensures var t := s.workers[w].id;
      if b.txs[t].Act(s.workers[w].seen).Return? then
        && s'.receipts.Keys == s.receipts.Keys + {t}
        && WorkLeft(b, s'.workers[w]) < WorkLeft(b, s.workers[w]) + Full(b, t)
      else
        s'.receipts == s.receipts && WorkLeft(b, s'.workers[w]) < WorkLeft(b, s.workers[w])
  {
  }

  /** No step raises the potential, and a productive one lowers it. */
  lemma StepPotential(b: Block, s: State, w: nat, s': State)
    requires Safe(b, s) && w < |s.workers| && s' == Step(b, s, w)
    ensures Potential(b, s') <= Potential(b, s)
    ensures Productive(s, w) ==> Potential(b, s') < Potential(b, s)
  {
    if s.workers[w].Running? {
      RunningWork(b, s, w, s');
      var t := s.workers[w].id;
      assert WorkerOk(s, s.workers[w]);
      UnexecutedLess(b, s.receipts.Keys, t, |b.txs|);
    } else if s.workers[w].Consuming? {
      ConsumingWork(b, s, w, s');
    } else {
      WaitingWork(b, s, w, s');
    }
    SumUpdate(s.workers, Working(b), w, s'.workers[w]);
  }

  lemma {:induction false} RunPotential(b: Block, s: State, schedule: seq<nat>)
    requires Safe(b, s) && forall i :: 0 <= i < |schedule| ==> schedule[i] < |s.workers|
    ensures Safe(b, Run(b, s, schedule)) && Potential(b, Run(b, s, schedule)) <= Potential(b, s)
    decreases |schedule|
  {
    if schedule == [] {
    } else {
      var s' := Step(b, s, schedule[0]);
      StepShape(b, s, schedule[0]);
      StepSafe(b, s, schedule[0], s');
      StepPotential(b, s, schedule[0], s');
      RunPotential(b, s', schedule[1..]);
    }
  }

  /** How many turns a worker needs before its next one is productive, if work is queued. */
  function Phase(w: Worker): nat {
    match w
    case Flushing(_) => 2
    case Idle => 1
    case _ => 0
  }

  /** How often worker x has a turn. */
  function Turns(schedule: seq<nat>, x: nat): nat {
    if schedule == [] then 0 else (if schedule[0] == x then 1 else 0) + Turns(schedule[1..], x)
  }

  ghost predicate ExitedOk(b: Block, s: State) {
    forall x :: 0 <= x < |s.workers| && s.workers[x].Exited? ==> s.exeCnt >= |b.txs|
  }

  /** A polling turn while work is queued brings the worker closer to taking it. */
  lemma PollEffect(b: Block, s: State, w: nat, s': State)
    requires Shape(b, s) && w < |s.workers| && s' == Step(b, s, w) && !Productive(s, w)
    ensures |s'.workers| == |s.workers| && s'.workers == s.workers[w := s'.workers[w]] && s'.queue == s.queue
    ensures s'.exeCnt >= s.exeCnt
    ensures s'.workers[w].Exited? && !s.workers[w].Exited? ==> s.exeCnt >= |b.txs|
    ensures s.queue != [] && s.exeCnt < |b.txs| && !s.workers[w].Exited? ==>
      Phase(s'.workers[w]) == Phase(s.workers[w]) - 1
  {
  }

  lemma QueuedMeansUnfinished(b: Block, s: State)
    requires Safe(b, s) && s.queue != []
    ensures s.exeCnt < |b.txs|
  {
    if s.exeCnt >= |b.txs| { FinishedMeansDone(b, s); }
  }

  /** A schedule that does not advance the block gives worker x few turns. */
  lemma {:induction false} Stuck(b: Block, s: State, schedule: seq<nat>, x: nat)
    requires Safe(b, s) && ExitedOk(b, s)
    requires x < |s.workers| && forall i :: 0 <= i < |schedule| ==> schedule[i] < |s.workers|
    requires Holder(s.workers[x]) || s.queue != []
    requires Potential(b, Run(b, s, schedule)) == Potential(b, s)
    ensures Turns(schedule, x) <= Phase(s.workers[x])
    decreases |schedule|
  {
    if schedule == [] {
    } else {
      var w := schedule[0];
      var s' := Step(b, s, w);
      StuckStep(b, s, schedule, s');
      if s.queue != [] { QueuedMeansUnfinished(b, s); }
      PollEffect(b, s, w, s');
      Stuck(b, s', schedule[1..], x);
    }
  }

  lemma StuckStep(b: Block, s: State, schedule: seq<nat>, s': State)
    requires Safe(b, s) && schedule != []
    requires forall i :: 0 <= i < |schedule| ==> schedule[i] < |s.workers|
    requires s' == Step(b, s, schedule[0])
    requires Potential(b, Run(b, s, schedule)) == Potential(b, s)
    ensures Safe(b, s') && |s'.workers| == |s.workers| && !Productive(s, schedule[0])
    ensures Potential(b, Run(b, s', schedule[1..])) == Potential(b, s')
  {
    StepShape(b, s, schedule[0]);
    StepSafe(b, s, schedule[0], s');
    StepPotential(b, s, schedule[0], s');
    RunPotential(b, s', schedule[1..]);
  }

  /** Every worker has at least three turns. */
  ghost predicate IsRound(schedule: seq<nat>, threads: nat) {
    && (forall i :: 0 <= i < |schedule| ==> schedule[i] < threads)
    && forall x :: 0 <= x < threads ==> Turns(schedule, x) >= 3
  }

  /** A round advances an unfinished block. */
  lemma RoundAdvances(b: Block, s: State, round: seq<nat>)
    requires Safe(b, s) && ExitedOk(b, s) && |s.workers| > 0 && IsRound(round, |s.workers|)
    requires s.totalConsume < |b.txs|
    ensures Potential(b, Run(b, s, round)) < Potential(b, s)
  {
    RunPotential(b, s, round);
    var x := 0;
    if s.queue == [] { x := WorkAvailable(b, s); }
    if Potential(b, Run(b, s, round)) == Potential(b, s) { Stuck(b, s, round, x); }
  }

  function DrainPhase(w: Worker): nat {
    match w
    case Popping(_) => 2
    case Flushing(_) => 1
    case _ => 0
  }

  ghost predicate AllConsumed(b: Block, s: State) {
    s.totalConsume >= |b.txs|
  }

  lemma AllConsumedHands(b: Block, s: State)
    requires Safe(b, s) && AllConsumed(b, s)
    ensures s.consumed == Indices(|b.txs|) && s.queue == []
    ensures forall w :: 0 <= w < |s.workers| ==> !Holder(s.workers[w])
    ensures |s.receipts| == |b.txs|
  {
    assert s.queue != [] ==> Unstarted(s, s.queue[0]);
    SubsetSize(s.consumed, Indices(|b.txs|));
    assert s.receipts.Keys == Indices(|b.txs|);
    forall w | 0 <= w < |s.workers|
      ensures !Holder(s.workers[w])
    {
      if Holder(s.workers[w]) { InHandOnce(s, w, s.workers[w].id); }
    }
  }

  lemma DrainStep(b: Block, s: State, w: nat, s': State)
    requires Safe(b, s) && AllConsumed(b, s) && w < |s.workers| && s' == Step(b, s, w)
    ensures Safe(b, s') && AllConsumed(b, s')
    ensures |s'.workers| == |s.workers| && s'.workers == s.workers[w := s'.workers[w]]
    ensures DrainPhase(s'.workers[w]) < DrainPhase(s.workers[w]) || LocalCount(s'.workers[w]) == 0
    ensures LocalCount(s.workers[w]) == 0 ==> LocalCount(s'.workers[w]) == 0
  {
    AllConsumedHands(b, s);
    StepSafe(b, s, w, s');
    DrainEffect(b, s, w, s');
  }

  lemma DrainEffect(b: Block, s: State, w: nat, s': State)
    requires Shape(b, s) && w < |s.workers| && s' == Step(b, s, w) && !Holder(s.workers[w]) && s.queue == []
    ensures |s'.workers| == |s.workers| && s'.workers == s.workers[w := s'.workers[w]]
    ensures s'.totalConsume == s.totalConsume && s'.exeCnt >= s.exeCnt
    ensures DrainPhase(s'.workers[w]) < DrainPhase(s.workers[w]) || LocalCount(s'.workers[w]) == 0
    ensures LocalCount(s.workers[w]) == 0 ==> LocalCount(s'.workers[w]) == 0
    ensures s.exeCnt >= |b.txs| ==> s'.workers[w].Exited? || ExitPhase(s'.workers[w]) < ExitPhase(s.workers[w])
  {
  }

  /** With everything consumed, a worker given enough turns has flushed its local count. */
  lemma {:induction false} Drains(b: Block, s: State, schedule: seq<nat>, x: nat)
    requires Safe(b, s) && AllConsumed(b, s)
    requires x < |s.workers| && forall i :: 0 <= i < |schedule| ==> schedule[i] < |s.workers|
    ensures Safe(b, Run(b, s, schedule)) && AllConsumed(b, Run(b, s, schedule))
    ensures Turns(schedule, x) >= DrainPhase(s.workers[x]) || LocalCount(s.workers[x]) == 0
      ==> LocalCount(Run(b, s, schedule).workers[x]) == 0
    decreases |schedule|
  {
    if schedule == [] {
      DrainedCount(b, s, x);
    } else {
      var s' := Step(b, s, schedule[0]);
      DrainStep(b, s, schedule[0], s');
      Drains(b, s', schedule[1..], x);
    }
  }

  lemma DrainedCount(b: Block, s: State, x: nat)
    requires Safe(b, s) && AllConsumed(b, s) && x < |s.workers|
    ensures DrainPhase(s.workers[x]) == 0 ==> LocalCount(s.workers[x]) == 0
  {
    AllConsumedHands(b, s);
  }

  function ExitPhase(w: Worker): nat {
    match w
    case Popping(_) => 3
    case Flushing(_) => 2
    case Idle => 1
    case _ => 0
  }

  /** Once hasFinished is true, a worker given enough turns leaves the loop. */
  lemma {:induction false} Leaves(b: Block, s: State, schedule: seq<nat>, x: nat)
    requires Safe(b, s) && s.exeCnt >= |b.txs|
    requires x < |s.workers| && forall i :: 0 <= i < |schedule| ==> schedule[i] < |s.workers|
    ensures Turns(schedule, x) >= ExitPhase(s.workers[x]) ==> Run(b, s, schedule).workers[x].Exited?
    decreases |schedule|
  {
    if schedule == [] {
      FinishedMeansDone(b, s);
    } else {
      var w := schedule[0];
      var s' := Step(b, s, w);
      LeaveStep(b, s, w, s');
      Leaves(b, s', schedule[1..], x);
    }
  }

  lemma LeaveStep(b: Block, s: State, w: nat, s': State)
    requires Safe(b, s) && s.exeCnt >= |b.txs| && w < |s.workers| && s' == Step(b, s, w)
    ensures Safe(b, s') && s'.exeCnt >= |b.txs|
    ensures |s'.workers| == |s.workers| && s'.workers == s.workers[w := s'.workers[w]]
    ensures s'.workers[w].Exited? || ExitPhase(s'.workers[w]) < ExitPhase(s.workers[w])
  {
    FinishedMeansDone(b, s);
    StepSafe(b, s, w, s');
    DrainEffect(b, s, w, s');
  }

  lemma {:induction false} RunAppend(b: Block, s: State, left: seq<nat>, right: seq<nat>)
    requires Shape(b, s) && forall i :: 0 <= i < |left + right| ==> (left + right)[i] < |s.workers|
    ensures forall i :: 0 <= i < |left| ==> left[i] < |s.workers|
    ensures forall i :: 0 <= i < |right| ==> right[i] < |s.workers|
    ensures Run(b, s, left + right) == Run(b, Run(b, s, left), right)
    decreases |left|
  {
    forall i | 0 <= i < |left| ensures left[i] < |s.workers| { assert left[i] == (left + right)[i]; }
    forall i | 0 <= i < |right| ensures right[i] < |s.workers| { assert right[i] == (left + right)[|left| + i]; }
    if left == [] {
      assert left + right == right;
    } else {
      assert (left + right)[1..] == left[1..] + right;
      StepShape(b, s, left[0]);
      RunAppend(b, Step(b, s, left[0]), left[1..], right);
    }
  }

  function Flatten(rounds: seq<seq<nat>>): seq<nat> {
    if rounds == [] then [] else rounds[0] + Flatten(rounds[1..])
  }

  lemma {:induction false} FlattenBounds(rounds: seq<seq<nat>>, threads: nat)
    requires forall r :: 0 <= r < |rounds| ==> IsRound(rounds[r], threads)
    ensures forall i :: 0 <= i < |Flatten(rounds)| ==> Flatten(rounds)[i] < threads
  {
    if rounds == [] {
    } else {
      FlattenBounds(rounds[1..], threads);
    }
  }

  lemma {:induction false} RunExitedOk(b: Block, s: State, schedule: seq<nat>)
    requires Shape(b, s) && ExitedOk(b, s) && forall i :: 0 <= i < |schedule| ==> schedule[i] < |s.workers|
    ensures ExitedOk(b, Run(b, s, schedule))
    decreases |schedule|
  {
    if schedule == [] {
    } else {
      StepShape(b, s, schedule[0]);
      RunExitedOk(b, Step(b, s, schedule[0]), schedule[1..]);
    }
  }

  lemma DrainRound(b: Block, s: State, round: seq<nat>, s': State)
    requires Safe(b, s) && AllConsumed(b, s) && IsRound(round, |s.workers|) && |s.workers| > 0
    requires s' == Run(b, s, round)
    ensures Safe(b, s') && s'.exeCnt >= |b.txs|
  {
    Drains(b, s, round, 0);
    forall x | 0 <= x < |s.workers| ensures LocalCount(s'.workers[x]) == 0 { DrainedBy(b, s, round, s', x); }
    AllFlushed(b, s');
  }

  lemma DrainedBy(b: Block, s: State, round: seq<nat>, s': State, x: nat)
    requires Safe(b, s) && AllConsumed(b, s) && IsRound(round, |s.workers|) && x < |s.workers|
    requires s' == Run(b, s, round)
    ensures LocalCount(s'.workers[x]) == 0
  {
    assert Turns(round, x) >= 3 >= DrainPhase(s.workers[x]);
    Drains(b, s, round, x);
  }

  lemma LeaveRound(b: Block, s: State, round: seq<nat>)
    requires Safe(b, s) && s.exeCnt >= |b.txs| && IsRound(round, |s.workers|)
    ensures forall x :: 0 <= x < |s.workers| ==> Run(b, s, round).workers[x].Exited?
  {
    forall x | 0 <= x < |s.workers|
      ensures Run(b, s, round).workers[x].Exited?
    {
      Leaves(b, s, round, x);
    }
  }

  /** Two rounds after the last transaction is consumed, every worker has left. */
  lemma LastRounds(b: Block, s: State, drain: seq<nat>, leave: seq<nat>)
    requires Safe(b, s) && AllConsumed(b, s) && IsRound(drain, |s.workers|) && IsRound(leave, |s.workers|)
    ensures forall x :: 0 <= x < |s.workers| ==> Run(b, Run(b, s, drain), leave).workers[x].Exited?
  {
    if |s.workers| > 0 {
      var s' := Run(b, s, drain);
      DrainRound(b, s, drain, s');
      LeaveRound(b, s', leave);
    }
  }

  lemma AllFlushed(b: Block, s: State)
    requires Safe(b, s) && AllConsumed(b, s)
    requires forall x :: 0 <= x < |s.workers| ==> LocalCount(s.workers[x]) == 0
    ensures s.exeCnt >= |b.txs|
  {
    AllConsumedHands(b, s);
    SumZero(s.workers, LocalCount);
    SumZero(s.workers, IsRunning);
  }

  lemma {:induction false} ExitedStays(b: Block, s: State, schedule: seq<nat>)
    requires Shape(b, s) && forall i :: 0 <= i < |schedule| ==> schedule[i] < |s.workers|
    requires forall x :: 0 <= x < |s.workers| ==> s.workers[x].Exited?
    ensures Run(b, s, schedule) == s
    decreases |schedule|
  {
    if schedule == [] {
    } else {
      assert Step(b, s, schedule[0]) == s;
      ExitedStays(b, s, schedule[1..]);
    }
  }

  lemma {:induction false} RoundsComplete(b: Block, s: State, rounds: seq<seq<nat>>)
    requires Safe(b, s) && ExitedOk(b, s)
    requires forall r :: 0 <= r < |rounds| ==> IsRound(rounds[r], |s.workers|)
    requires |rounds| >= Potential(b, s) + 2
    ensures forall i :: 0 <= i < |Flatten(rounds)| ==> Flatten(rounds)[i] < |s.workers|
    ensures forall x :: 0 <= x < |s.workers| ==> Run(b, s, Flatten(rounds)).workers[x].Exited?
    decreases |rounds|
  {
    FlattenBounds(rounds, |s.workers|);
    if |s.workers| > 0 {
      var s1 := Run(b, s, rounds[0]);
      var rest := rounds[1..];
      FlattenBounds(rest, |s.workers|);
      RunAppend(b, s, rounds[0], Flatten(rest));
      RunPotential(b, s, rounds[0]);
      RunExitedOk(b, s, rounds[0]);
      if s.totalConsume < |b.txs| {
        RoundAdvances(b, s, rounds[0]);
        RoundsComplete(b, s1, rest);
      } else {
        LastRounds(b, s, rounds[0], rounds[1]);
        FlattenBounds(rest[1..], |s.workers|);
        RunAppend(b, s1, rest[0], Flatten(rest[1..]));
        ExitedStays(b, Run(b, s1, rest[0]), Flatten(rest[1..]));
      }
    }
  }
}
