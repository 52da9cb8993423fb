/**
 What every step of the parallel run keeps: each vertex is in exactly one place, in-degrees count the
 decrements still to come, no transaction starts before its predecessors have been executed, none is
 executed twice, and the counters count executions.
 */
module ScheduleSafety {
  import opened Prelude
  import opened TxGraph
  import opened Scheduler

  function IfNamed(o: Option<ID>, v: ID): nat {
    if o == Some(v) then 1 else 0
  }

  /** How often a worker has v in hand. */
  function InHand(w: Worker, v: ID): nat {
    match w
    case Running(_, id, _) => if id == v then 1 else 0
    case Consuming(_, id, _, next, push) => (if id == v then 1 else 0) + IfNamed(next, v) + IfNamed(push, v)
    case _ => 0
  }

  function Holding(v: ID): Worker -> nat {
    w => InHand(w, v)
  }

  function LocalCount(w: Worker): nat {
    match w
    case Popping(c) => c
    case Running(c, _, _) => c
    case Consuming(c, _, _, _, _) => c
    case Flushing(c) => c
    case _ => 0
  }

  function IsRunning(w: Worker): nat {
    if w.Running? then 1 else 0
  }

  function Sum(ws: seq<Worker>, f: Worker -> nat): nat {
    if ws == [] then 0 else Sum(ws[..|ws| - 1], f) + f(ws[|ws| - 1])
  }

  /** How often v has been released: queued, in hand, or consumed. */
  function Tokens(s: State, v: ID): nat {
    multiset(s.queue)[v] + Sum(s.workers, Holding(v)) + if v in s.consumed then 1 else 0
  }

  lemma {:induction false} SumUpdate(ws: seq<Worker>, f: Worker -> nat, w: nat, to: Worker)
    requires w < |ws|
    ensures Sum(ws[w := to], f) + f(ws[w]) == Sum(ws, f) + f(to)
  {
    var front := ws[..|ws| - 1];
    if w == |ws| - 1 {
      assert ws[w := to][..|ws| - 1] == front;
    } else {
      assert ws[w := to][..|ws| - 1] == front[w := to];
      SumUpdate(front, f, w, to);
    }
  }

  lemma {:induction false} SumMember(ws: seq<Worker>, f: Worker -> nat, w: nat)
    requires w < |ws|
    ensures f(ws[w]) <= Sum(ws, f)
  {
    if w < |ws| - 1 { SumMember(ws[..|ws| - 1], f, w); }
  }

  lemma {:induction false} SumPair(ws: seq<Worker>, f: Worker -> nat, w: nat, x: nat)
    requires w < x < |ws|
    ensures f(ws[w]) + f(ws[x]) <= Sum(ws, f)
  {
    if x < |ws| - 1 { SumPair(ws[..|ws| - 1], f, w, x); } else { SumMember(ws[..|ws| - 1], f, w); }
  }

  lemma {:induction false} SumPositive(ws: seq<Worker>, f: Worker -> nat) returns (w: nat)
    requires Sum(ws, f) > 0
    ensures w < |ws| && f(ws[w]) > 0
  {
    if f(ws[|ws| - 1]) > 0 { w := |ws| - 1; } else { w := SumPositive(ws[..|ws| - 1], f); }
  }

  /** Replacing one worker moves only what that worker holds. */
  lemma HandChange(ws: seq<Worker>, w: nat, to: Worker)
    requires w < |ws|
    ensures forall v: ID :: Sum(ws[w := to], Holding(v)) + InHand(ws[w], v) == Sum(ws, Holding(v)) + InHand(to, v)
    ensures Sum(ws[w := to], LocalCount) + LocalCount(ws[w]) == Sum(ws, LocalCount) + LocalCount(to)
    ensures Sum(ws[w := to], IsRunning) + IsRunning(ws[w]) == Sum(ws, IsRunning) + IsRunning(to)
  {
    forall v: ID
      ensures Sum(ws[w := to], Holding(v)) + InHand(ws[w], v) == Sum(ws, Holding(v)) + InHand(to, v)
    {
      SumUpdate(ws, Holding(v), w, to);
    }
    SumUpdate(ws, LocalCount, w, to);
    SumUpdate(ws, IsRunning, w, to);
  }

  ghost predicate DegreesOk(b: Block, s: State)
    requires Shape(b, s)
  {
    forall v :: 0 <= v < |s.inDegree| ==> s.inDegree[v] == Pending(b.graph, s.applied, v, |b.graph|)
  }

  /** Exactly the vertices of in-degree zero are released, each in one place. */
  ghost predicate TokensOk(s: State) {
    forall v: ID :: Tokens(s, v) == if v < |s.inDegree| && s.inDegree[v] == 0 then 1 else 0
  }

  ghost predicate Unstarted(s: State, v: ID) {
    v !in s.receipts && v < |s.applied| && s.applied[v] == 0
  }

  ghost predicate WorkerOk(s: State, w: Worker) {
    match w
    case Running(c, id, _) => c >= 1 && Unstarted(s, id)
    case Consuming(c, id, e, next, push) =>
      && c >= 1 && id in s.receipts && id < |s.applied| && s.applied[id] == e
      && (next.Some? ==> Unstarted(s, next.value))
      && (push.Some? ==> Unstarted(s, push.value))
    case _ => true
  }

  ghost predicate HistoryOk(b: Block, s: State)
    requires Shape(b, s)
  {
    && (forall i :: 0 <= i < |s.queue| ==> Unstarted(s, s.queue[i]))
    && (forall w :: 0 <= w < |s.workers| ==> WorkerOk(s, s.workers[w]))
    && (forall u :: u in s.consumed ==> u < |b.graph| && u in s.receipts && s.applied[u] == |b.graph[u]|)
    && (forall u :: u in s.receipts ==> u < |b.graph| && s.inDegree[u] == 0)
    && (forall u :: 0 <= u < |b.graph| ==> s.applied[u] <= |b.graph[u]| && (s.applied[u] > 0 ==> u in s.receipts))
  }

  /** m_totalConsume counts consumed vertices; m_exeCnt and the workers' local counts together count the
      executions that have begun. */
  ghost predicate CountsOk(s: State) {
    && s.totalConsume == |s.consumed|
    && s.exeCnt + Sum(s.workers, LocalCount) == |s.receipts| + Sum(s.workers, IsRunning)
  }

  ghost predicate Safe(b: Block, s: State) {
    Shape(b, s) && DegreesOk(b, s) && TokensOk(s) && HistoryOk(b, s) && CountsOk(s)
  }

  /** A vertex in a worker's hand is nowhere else. */
  lemma InHandOnce(s: State, w: nat, v: ID)
    requires TokensOk(s) && w < |s.workers| && InHand(s.workers[w], v) > 0
    ensures InHand(s.workers[w], v) == 1 && v !in s.queue && v !in s.consumed
    ensures v < |s.inDegree| && s.inDegree[v] == 0
    ensures forall x :: 0 <= x < |s.workers| && x != w ==> InHand(s.workers[x], v) == 0
  {
    SumMember(s.workers, Holding(v), w);
    assert Tokens(s, v) == 1;
    forall x | 0 <= x < |s.workers| && x != w
      ensures InHand(s.workers[x], v) == 0
    {
      if x < w { SumPair(s.workers, Holding(v), x, w); } else { SumPair(s.workers, Holding(v), w, x); }
    }
    assert multiset(s.queue)[v] == 0;
  }

  lemma {:induction false} PendingStep(g: Graph, applied: seq<nat>, u: ID, k: nat)
    requires k <= |g| == |applied| && u < |g| && applied[u] < |g[u]|
    ensures forall v: ID :: Pending(g, applied, v, k) ==
                            Pending(g, applied[u := applied[u] + 1], v, k) +
                            if u < k && v == g[u][applied[u]] then 1 else 0
  {
    if k == 0 {
    } else {
      PendingStep(g, applied, u, k - 1);
      if u == k - 1 {
        assert g[u][applied[u]..] == [g[u][applied[u]]] + g[u][applied[u] + 1..];
      }
    }
  }

  lemma {:induction false} PendingAtLeast(g: Graph, applied: seq<nat>, v: ID, k: nat, u: ID)
    requires u < k <= |g| == |applied|
    ensures EdgesLeft(g[u], applied[u], v) <= Pending(g, applied, v, k)
  {
    if u < k - 1 { PendingAtLeast(g, applied, v, k - 1, u); }
  }

  /** A released vertex has had every incoming edge decremented, so its predecessors were executed. */
  lemma PredecessorsExecuted(b: Block, s: State, u: ID, v: ID)
    requires Safe(b, s) && Edge(b.graph, u, v) && v < |b.graph| && s.inDegree[v] == 0
    ensures u in s.receipts
  {
    PendingAtLeast(b.graph, s.applied, v, |b.graph|, u);
    assert b.graph[u][0..] == b.graph[u];
    assert multiset(b.graph[u])[v] > 0;
  }

  function Released(s: State, v: ID): nat {
    if v < |s.inDegree| && s.inDegree[v] == 0 then 1 else 0
  }

  /** The tokens a step of worker w can move. */
  function Near(s: State, w: nat, v: ID): nat
    requires w < |s.workers|
  {
    multiset(s.queue)[v] + InHand(s.workers[w], v) + if v in s.consumed then 1 else 0
  }

  lemma TokensKept(s: State, s': State, w: nat)
    requires TokensOk(s) && w < |s.workers| == |s'.workers| && s'.workers == s.workers[w := s'.workers[w]]
    requires forall v: ID :: Near(s', w, v) + Released(s, v) == Near(s, w, v) + Released(s', v)
    ensures TokensOk(s')
  {
    HandChange(s.workers, w, s'.workers[w]);
    forall v: ID
      ensures Tokens(s', v) == Released(s', v)
    {
      assert Near(s', w, v) + Released(s, v) == Near(s, w, v) + Released(s', v);
      assert Tokens(s, v) == Released(s, v);
    }
  }

  lemma CountsKept(s: State, s': State, w: nat)
    requires CountsOk(s) && w < |s.workers| == |s'.workers| && s'.workers == s.workers[w := s'.workers[w]]
    requires s'.totalConsume == |s'.consumed|
    requires s'.exeCnt + LocalCount(s'.workers[w]) + |s.receipts| + IsRunning(s.workers[w])
          == s.exeCnt + LocalCount(s.workers[w]) + |s'.receipts| + IsRunning(s'.workers[w])
    ensures CountsOk(s')
  {
    HandChange(s.workers, w, s'.workers[w]);
  }

  /** Steps that change neither the history nor the in-degrees. */
  lemma HistoryKept(b: Block, s: State, s': State, w: nat)
    requires Shape(b, s) && Shape(b, s') && HistoryOk(b, s) && DegreesOk(b, s)
    requires w < |s.workers| == |s'.workers| && s'.workers == s.workers[w := s'.workers[w]]
    requires s'.receipts == s.receipts && s'.applied == s.applied && s'.inDegree == s.inDegree
    requires s'.consumed == s.consumed
    requires WorkerOk(s', s'.workers[w])
    requires forall i :: 0 <= i < |s'.queue| ==> Unstarted(s', s'.queue[i])
    ensures HistoryOk(b, s') && DegreesOk(b, s')
  {
    forall x | 0 <= x < |s'.workers|
      ensures WorkerOk(s', s'.workers[x])
    {
      assert x != w ==> WorkerOk(s, s.workers[x]);
    }
  }

  lemma IdlePreserves(b: Block, s: State, w: nat, s': State)
    requires Safe(b, s) && w < |s.workers| && s' == Step(b, s, w)
    requires s.workers[w].Idle? || s.workers[w].Flushing? || (s.workers[w].Popping? && s.queue == [])
    ensures Safe(b, s')
  {
    StepShape(b, s, w);
    TokensKept(s, s', w);
    CountsKept(s, s', w);
    HistoryKept(b, s, s', w);
  }

  lemma PopPreserves(b: Block, s: State, w: nat, s': State)
    requires Safe(b, s) && w < |s.workers| && s' == Step(b, s, w) && s.workers[w].Popping? && s.queue != []
    ensures Safe(b, s')
  {
    StepShape(b, s, w);
    assert s.queue == [s.queue[0]] + s'.queue;
    TokensKept(s, s', w);
    CountsKept(s, s', w);
    HistoryKept(b, s, s', w);
  }

  lemma AccessPreserves(b: Block, s: State, w: nat, s': State)
    requires Safe(b, s) && w < |s.workers| && s' == Step(b, s, w) && s.workers[w].Running?
    requires !b.txs[s.workers[w].id].Act(s.workers[w].seen).Return?
    ensures Safe(b, s')
  {
    StepShape(b, s, w);
    TokensKept(s, s', w);
    CountsKept(s, s', w);
    HistoryKept(b, s, s', w);
  }

  lemma PushPreserves(b: Block, s: State, w: nat, s': State)
    requires Safe(b, s) && w < |s.workers| && s' == Step(b, s, w) && s.workers[w].Consuming? && s.workers[w].push.Some?
    ensures Safe(b, s')
  {
    StepShape(b, s, w);
    PushKeeps(b, s, s', w);
  }

  lemma PushKeeps(b: Block, s: State, s': State, w: nat)
    requires Safe(b, s) && Shape(b, s') && w < |s.workers| && s.workers[w].Consuming? && s.workers[w].push.Some?
    requires s' == s.(queue := s.queue + [s.workers[w].push.value],
                      workers := s.workers[w := s.workers[w].(push := None)])
    ensures Safe(b, s')
  {
    PushTokens(s, s', w);
    CountsKept(s, s', w);
    PushQueue(b, s, s', w);
    HistoryKept(b, s, s', w);
  }

  lemma PushQueue(b: Block, s: State, s': State, w: nat)
    requires Shape(b, s) && HistoryOk(b, s) && w < |s.workers|
    requires s.workers[w].Consuming? && s.workers[w].push.Some?
    requires s' == s.(queue := s.queue + [s.workers[w].push.value],
                      workers := s.workers[w := s.workers[w].(push := None)])
    ensures WorkerOk(s', s'.workers[w]) && forall i :: 0 <= i < |s'.queue| ==> Unstarted(s', s'.queue[i])
  {
    assert WorkerOk(s, s.workers[w]);
  }

  lemma PushTokens(s: State, s': State, w: nat)
    requires TokensOk(s) && w < |s.workers| && s.workers[w].Consuming? && s.workers[w].push.Some?
    requires s' == s.(queue := s.queue + [s.workers[w].push.value],
                      workers := s.workers[w := s.workers[w].(push := None)])
    ensures TokensOk(s')
  {
    TokensKept(s, s', w);
  }

  lemma ReturnPreserves(b: Block, s: State, w: nat, s': State)
    requires Safe(b, s) && w < |s.workers| && s' == Step(b, s, w) && s.workers[w].Running?
    requires b.txs[s.workers[w].id].Act(s.workers[w].seen).Return?
    ensures Safe(b, s')
  {
    StepShape(b, s, w);
    assert WorkerOk(s, s.workers[w]);
    ReturnKeeps(b, s, s', w, b.txs[s.workers[w].id].Act(s.workers[w].seen).receipt);
  }

  lemma ReturnKeeps(b: Block, s: State, s': State, w: nat, r: Receipt)
    requires Safe(b, s) && Shape(b, s') && w < |s.workers| && s.workers[w].Running? && s.workers[w].id !in s.receipts
    requires s' == s.(receipts := s.receipts[s.workers[w].id := r],
                      workers := s.workers[w := Consuming(s.workers[w].count, s.workers[w].id, 0, None, None)])
    ensures Safe(b, s')
  {
    ReturnTokens(s, s', w);
    ReceiptAdded(s.receipts, s.workers[w].id, r);
    CountsKept(s, s', w);
    ReturnHistory(b, s, s', w, s.workers[w].id);
  }

  lemma ReceiptAdded(m: map<ID, Receipt>, id: ID, r: Receipt)
    requires id !in m
    ensures m[id := r].Keys == m.Keys + {id} && |m[id := r]| == |m| + 1
  {
    assert m[id := r].Keys == m.Keys + {id};
  }

  lemma ReturnTokens(s: State, s': State, w: nat)
    requires TokensOk(s) && w < |s.workers| && s.workers[w].Running?
    requires s'.workers == s.workers[w := Consuming(s.workers[w].count, s.workers[w].id, 0, None, None)]
    requires s'.queue == s.queue && s'.consumed == s.consumed && s'.inDegree == s.inDegree
    ensures TokensOk(s')
  {
    TokensKept(s, s', w);
  }

  lemma ReturnHistory(b: Block, s: State, s': State, w: nat, id: ID)
    requires Shape(b, s) && TokensOk(s) && DegreesOk(b, s) && HistoryOk(b, s)
    requires Shape(b, s') && w < |s.workers| && s.workers[w].Running? && id == s.workers[w].id
    requires s'.receipts.Keys == s.receipts.Keys + {id} && s'.applied == s.applied && s'.inDegree == s.inDegree
    requires s'.queue == s.queue && s'.consumed == s.consumed
    requires s'.workers == s.workers[w := Consuming(s.workers[w].count, id, 0, None, None)]
    ensures HistoryOk(b, s') && DegreesOk(b, s')
  {
    InHandOnce(s, w, id);
    assert WorkerOk(s, s.workers[w]);
    forall x | 0 <= x < |s.workers|
      ensures WorkerOk(s', s'.workers[x])
    {
      if x != w { ReturnWorker(s, s', id, s.workers[x]); }
    }
    forall i | 0 <= i < |s.queue|
      ensures Unstarted(s', s'.queue[i])
    {
      assert Unstarted(s, s.queue[i]);
    }
  }

  lemma ReturnWorker(s: State, s': State, id: ID, x: Worker)
    requires WorkerOk(s, x) && InHand(x, id) == 0
    requires s'.receipts.Keys == s.receipts.Keys + {id} && s'.applied == s.applied
    ensures WorkerOk(s', x)
  {
  }

  /** What one atomic decrement of the out-edge loop does to the state. */
  ghost predicate Decremented(b: Block, s: State, s': State, w: nat, id: ID, v: ID)
    requires Shape(b, s) && w < |s.workers|
  {
    && s.workers[w].Consuming? && s.workers[w].id == id && s.workers[w].push.None?
    && v < |s.inDegree| && id < |s.applied|
    && |s'.workers| == |s.workers|
    && s' == s.(inDegree := s.inDegree[v := s.inDegree[v] - 1],
                applied := s.applied[id := s.applied[id] + 1],
                workers := s.workers[w := s'.workers[w]])
    && s'.workers[w].Consuming?
    && var x, y := s.workers[w], s'.workers[w];
       && y.id == id && y.edge == x.edge + 1 && y.count == x.count
       && (y.next, y.push) == (if s.inDegree[v] != 1 then (x.next, None)
                               else if x.next.None? then (Some(v), None)
                               else (x.next, Some(v)))
  }

  lemma DecrementEffect(b: Block, s: State, w: nat, s': State)
    requires Shape(b, s) && w < |s.workers| && s' == Step(b, s, w) && s.workers[w].Consuming? && s.workers[w].push.None?
    requires s.workers[w].edge < |b.graph[s.workers[w].id]|
    ensures Decremented(b, s, s', w, s.workers[w].id, b.graph[s.workers[w].id][s.workers[w].edge])
  {
  }

  lemma DecrementPreserves(b: Block, s: State, w: nat, s': State)
    requires Safe(b, s) && w < |s.workers| && s' == Step(b, s, w) && s.workers[w].Consuming? && s.workers[w].push.None?
    requires s.workers[w].edge < |b.graph[s.workers[w].id]|
    ensures Safe(b, s')
  {
    StepShape(b, s, w);
    DecrementEffect(b, s, w, s');
    DecrementKeeps(b, s, w, s', s.workers[w].id, b.graph[s.workers[w].id][s.workers[w].edge]);
  }

  lemma DecrementKeeps(b: Block, s: State, w: nat, s': State, id: ID, v: ID)
    requires Safe(b, s) && Shape(b, s') && w < |s.workers| && Decremented(b, s, s', w, id, v)
    requires s.workers[w].edge < |b.graph[id]| && v == b.graph[id][s.workers[w].edge]
    ensures Safe(b, s')
  {
    assert WorkerOk(s, s.workers[w]);
    DecrementDegrees(b, s, s', id);
    DecrementTokens(b, s, s', w, id, v);
    CountsKept(s, s', w);
    DecrementHistory(b, s, s', w, id, v);
  }

  lemma DecrementTokens(b: Block, s: State, s': State, w: nat, id: ID, v: ID)
    requires Shape(b, s) && TokensOk(s) && w < |s.workers| && Decremented(b, s, s', w, id, v) && s.inDegree[v] >= 1
    ensures TokensOk(s')
  {
    forall x: ID
      ensures Near(s', w, x) + Released(s, x) == Near(s, w, x) + Released(s', x)
    {
    }
    TokensKept(s, s', w);
  }

  /** After a decrement the in-degrees still count the decrements to come. */
  lemma DecrementDegrees(b: Block, s: State, s': State, id: ID)
    requires Shape(b, s) && Shape(b, s') && DegreesOk(b, s) && id < |b.graph| && s.applied[id] < |b.graph[id]|
    requires var v := b.graph[id][s.applied[id]];
      s'.inDegree == s.inDegree[v := s.inDegree[v] - 1] && s'.applied == s.applied[id := s.applied[id] + 1]
    ensures s.inDegree[b.graph[id][s.applied[id]]] >= 1 && DegreesOk(b, s')
  {
    PendingStep(b.graph, s.applied, id, |b.graph|);
  }

  lemma DecrementWorker(s: State, s': State, id: ID, v: ID, x: Worker)
    requires WorkerOk(s, x) && InHand(x, id) == 0
    requires s'.receipts == s.receipts && id < |s.applied| && s'.applied == s.applied[id := s.applied[id] + 1]
    ensures WorkerOk(s', x)
  {
  }

  lemma DecrementHistory(b: Block, s: State, s': State, w: nat, id: ID, v: ID)
    requires Shape(b, s) && Shape(b, s') && HistoryOk(b, s) && TokensOk(s)
    requires w < |s.workers| && Decremented(b, s, s', w, id, v) && s.inDegree[v] >= 1 && s.applied[id] < |b.graph[id]|
    ensures HistoryOk(b, s')
  {
    InHandOnce(s, w, id);
    assert WorkerOk(s, s.workers[w]);
    assert v !in s.receipts && s.applied[v] == 0;
    forall x | 0 <= x < |s.workers|
      ensures WorkerOk(s', s'.workers[x])
    {
      if x != w { DecrementWorker(s, s', id, v, s.workers[x]); }
    }
    forall i | 0 <= i < |s.queue|
      ensures Unstarted(s', s'.queue[i])
    {
      assert Unstarted(s, s.queue[i]);
    }
  }

  lemma ConsumedPreserves(b: Block, s: State, w: nat, s': State)
    requires Safe(b, s) && w < |s.workers| && s' == Step(b, s, w) && s.workers[w].Consuming? && s.workers[w].push.None?
    requires s.workers[w].edge == |b.graph[s.workers[w].id]|
    ensures Safe(b, s')
  {
    StepShape(b, s, w);
    assert WorkerOk(s, s.workers[w]);
    ConsumedTokens(s, s', w);
    ConsumedHistory(b, s, s', w, s.workers[w].id);
  }

  lemma ConsumedTokens(s: State, s': State, w: nat)
    requires TokensOk(s) && CountsOk(s) && w < |s.workers| && s.workers[w].Consuming? && s.workers[w].push.None?
    requires |s'.workers| == |s.workers|
    requires s' == s.(totalConsume := s.totalConsume + 1, consumed := s.consumed + {s.workers[w].id},
                      workers := s.workers[w := s'.workers[w]])
    requires s'.workers[w] == match s.workers[w].next
                              case Some(v) => Running(s.workers[w].count + 1, v, [])
                              case None => Popping(s.workers[w].count)
    ensures TokensOk(s') && CountsOk(s')
  {
    InHandOnce(s, w, s.workers[w].id);
    TokensKept(s, s', w);
    CountsKept(s, s', w);
  }

  lemma ConsumedHistory(b: Block, s: State, s': State, w: nat, id: ID)
    requires Shape(b, s) && Shape(b, s') && HistoryOk(b, s) && DegreesOk(b, s)
    requires w < |s.workers| == |s'.workers| && s'.workers == s.workers[w := s'.workers[w]]
    requires id in s.receipts && id < |b.graph| && s.applied[id] == |b.graph[id]|
    requires s'.receipts == s.receipts && s'.applied == s.applied && s'.inDegree == s.inDegree
    requires s'.queue == s.queue && s'.consumed == s.consumed + {id}
    requires WorkerOk(s', s'.workers[w])
    ensures HistoryOk(b, s') && DegreesOk(b, s')
  {
    HistoryKept(b, s, s'.(consumed := s.consumed), w);
  }

  lemma ConsumingPreserves(b: Block, s: State, w: nat, s': State)
    requires Safe(b, s) && w < |s.workers| && s' == Step(b, s, w) && s.workers[w].Consuming?
    ensures Safe(b, s')
  {
    if s.workers[w].push.Some? { PushPreserves(b, s, w, s'); }
    else if s.workers[w].edge < |b.graph[s.workers[w].id]| { DecrementPreserves(b, s, w, s'); }
    else { ConsumedPreserves(b, s, w, s'); }
  }

  lemma RunningPreserves(b: Block, s: State, w: nat, s': State)
    requires Safe(b, s) && w < |s.workers| && s' == Step(b, s, w) && s.workers[w].Running?
    ensures Safe(b, s')
  {
    if b.txs[s.workers[w].id].Act(s.workers[w].seen).Return? {
      ReturnPreserves(b, s, w, s');
    } else {
      AccessPreserves(b, s, w, s');
    }
  }

  lemma WaitingPreserves(b: Block, s: State, w: nat, s': State)
    requires Safe(b, s) && w < |s.workers| && s' == Step(b, s, w)
    requires !s.workers[w].Running? && !s.workers[w].Consuming?
    ensures Safe(b, s')
  {
    if s.workers[w].Popping? && s.queue != [] { PopPreserves(b, s, w, s'); }
    else if !s.workers[w].Exited? { IdlePreserves(b, s, w, s'); }
  }

  /** Every step of every worker keeps the invariant. */
  lemma StepSafe(b: Block, s: State, w: nat, s': State)
    requires Safe(b, s) && w < |s.workers| && s' == Step(b, s, w)
    ensures Safe(b, s')
  {
    if s.workers[w].Running? { RunningPreserves(b, s, w, s'); }
    else if s.workers[w].Consuming? { ConsumingPreserves(b, s, w, s'); }
    else { WaitingPreserves(b, s, w, s'); }
  }
}
