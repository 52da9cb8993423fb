/**
 The parallel run of a block as a state machine: workers pop ready transactions, execute them one
 storage access at a time, and release their successors with one atomic decrement per out-edge
 (TxDAG::executeUnit, DAG::waitPop, DAG::consume and the worker loop of parallelExecuteBlock).
 A step belongs to one worker; a run is a sequence of worker numbers, so "for every sequence" is
 "for every interleaving".
 */
module Scheduler {
  import opened Prelude
  import opened TxGraph

  /** What is stored under a field, and what executing a transaction reports. */
  type Value(==, !new)
  type Receipt(==, !new)
  type Store = map<Key, Value>

  /** One atomic effect of a running transaction. */
  datatype Action = Read(key: Key) | Write(key: Key, value: Value) | Return(receipt: Receipt)

  /**
   A transaction. Its code is a function of what it has seen so far: one entry per action taken, the
   value found by a read, None for a write. It runs out of gas after `gas` actions.
   */
  datatype Tx = Tx(criticals: Criticals, code: seq<Option<Value>> -> Action, gas: nat, outOfGas: Receipt)
  {
    function Act(seen: seq<Option<Value>>): Action {
      if |seen| >= gas then Return(outOfGas) else code(seen)
    }
  }

  function Lookup(s: Store, k: Key): Option<Value> {
    if k in s then Some(s[k]) else None
  }

  /** Uninterrupted execution of a transaction from the point it has reached. */
  function Exec(tx: Tx, seen: seq<Option<Value>>, s: Store): (Store, Receipt)
    decreases tx.gas - |seen|
  {
    match tx.Act(seen)
    case Return(r) => (s, r)
    case Read(k) => Exec(tx, seen + [Lookup(s, k)], s)
    case Write(k, v) => Exec(tx, seen + [None], s[k := v])
  }

  /** From this point on, uninterrupted execution reads and writes only fields that are critical to the transaction. */
  ghost predicate KeepsToCriticals(tx: Tx, seen: seq<Option<Value>>, s: Store)
    decreases tx.gas - |seen|
  {
    match tx.Act(seen)
    case Return(_) => true
    case Read(k) => Touches(tx.criticals, k) && KeepsToCriticals(tx, seen + [Lookup(s, k)], s)
    case Write(k, v) => Touches(tx.criticals, k) && KeepsToCriticals(tx, seen + [None], s[k := v])
  }

  /** The store after executing transactions 0..n-1 one after the other. */
  function SerialStore(txs: seq<Tx>, s0: Store, n: nat): Store
    requires n <= |txs|
  {
    if n == 0 then s0 else Exec(txs[n - 1], [], SerialStore(txs, s0, n - 1)).0
  }

  function SerialReceipt(txs: seq<Tx>, s0: Store, i: nat): Receipt
    requires i < |txs|
  {
    Exec(txs[i], [], SerialStore(txs, s0, i)).1
  }

  /** A transaction that copies what is stored under one key to another, and reports r. */
  function Copying(a: Key, b: Key, r: Receipt, criticals: Criticals): Tx {
    Tx(criticals,
       (seen: seq<Option<Value>>) =>
         if |seen| == 0 then Read(a)
         else if |seen| == 1 && seen[0].Some? then Write(b, seen[0].value)
         else Return(r),
       10, r)
  }

  /** It finds what is stored, and what it writes is stored afterwards. */
  lemma CopyingCopies(a: Key, b: Key, r: Receipt, criticals: Criticals, s: Store)
    requires a in s
    ensures Exec(Copying(a, b, r, criticals), [], s) == (s[b := s[a]], r)
  {
    var tx := Copying(a, b, r, criticals);
    var one: seq<Option<Value>>, two: seq<Option<Value>> := [Some(s[a])], [Some(s[a]), None];
    assert [] + [Lookup(s, a)] == one && one + [None] == two;
    assert Exec(tx, two, s[b := s[a]]) == (s[b := s[a]], r);
    assert Exec(tx, one, s) == Exec(tx, two, s[b := s[a]]);
  }

  /** A transaction without gas does nothing and reports that. */
  lemma OutOfGas(tx: Tx, s: Store)
    requires tx.gas == 0
    ensures Exec(tx, [], s) == (s, tx.outOfGas)
  {
  }

  /** The transactions of a block, the store they start from and the edges between them. */
  datatype Block = Block(txs: seq<Tx>, s0: Store, graph: Graph)

  function CriticalsOf(txs: seq<Tx>): (r: seq<Criticals>)
    ensures |r| == |txs| && forall i :: 0 <= i < |txs| ==> r[i] == txs[i].criticals
  {
    seq(|txs|, i requires 0 <= i < |txs| => txs[i].criticals)
  }

  /** Executed one after the other, the transactions keep to their critical fields. */
  ghost predicate KeepToCriticals(b: Block) {
    forall i :: 0 <= i < |b.txs| ==> KeepsToCriticals(b.txs[i], [], SerialStore(b.txs, b.s0, i))
  }

  /** What parallelExecuteBlock sets up: the conflict graph of these transactions. */
  ghost predicate BlockOk(b: Block) {
    && |b.txs| < INVALID_ID
    && b.graph == ConflictGraph(CriticalsOf(b.txs))
    && KeepToCriticals(b)
  }

  /** Where a worker is. `count` is its local exeCnt; `next` and `push` are a produced vertex kept in
      hand and one on its way to the ready queue. */
  datatype Worker =
    | Idle
    | Exited
    | Popping(count: nat)
    | Running(count: nat, id: ID, seen: seq<Option<Value>>)
    | Consuming(count: nat, id: ID, edge: nat, next: Option<ID>, push: Option<ID>)
    | Flushing(count: nat)

  /** `applied[u]`, the number of out-edges of u already decremented, and `consumed` record history; no
      step reads them. */
  datatype State = State(
    inDegree: seq<int>,
    queue: seq<ID>,
    totalConsume: nat,
    exeCnt: nat,
    store: Store,
    receipts: map<ID, Receipt>,
    workers: seq<Worker>,
    applied: seq<nat>,
    consumed: set<ID>)

  /** Occurrences of v among the out-edges from u not yet decremented, for u below k. */
  function Pending(g: Graph, applied: seq<nat>, v: ID, k: nat): nat
    requires k <= |g| == |applied|
  {
    if k == 0 then 0
    else Pending(g, applied, v, k - 1) + EdgesLeft(g[k - 1], applied[k - 1], v)
  }

  function EdgesLeft(out: seq<ID>, from: nat, v: ID): nat {
    if from <= |out| then multiset(out[from..])[v] else 0
  }

  /** DAG::generate: the vertices of in-degree zero, in order. */
  function Ready(inDegree: seq<int>, n: nat): (r: seq<ID>)
    requires n <= |inDegree|
    ensures forall v: ID :: multiset(r)[v] == if v < n && inDegree[v] == 0 then 1 else 0
  {
    if n == 0 then []
    else
      var front := Ready(inDegree, n - 1);
      if inDegree[n - 1] == 0 then front + [n - 1] else front
  }

  function InDegrees(g: Graph): (r: seq<int>)
    ensures |r| == |g|
  {
    seq(|g|, v requires 0 <= v < |g| => Pending(g, seq(|g|, _ => 0), v, |g|))
  }

  function Init(b: Block, threads: nat): State {
    var d := InDegrees(b.graph);
    State(d, Ready(d, |d|), 0, 0, b.s0, map[], seq(threads, _ => Idle), seq(|b.graph|, _ => 0), {})
  }

  /** Every edge runs from a smaller id to a larger one. */
  ghost predicate EdgesGoUp(g: Graph) {
    forall u, i :: 0 <= u < |g| && 0 <= i < |g[u]| ==> u < g[u][i] < |g|
  }

  /** Indices stay in bounds. */
  ghost predicate Shape(b: Block, s: State) {
    var n := |b.graph|;
    && |b.txs| == n == |s.inDegree| == |s.applied|
    && EdgesGoUp(b.graph)
    && (forall i :: 0 <= i < |s.queue| ==> s.queue[i] < n)
    && forall w :: 0 <= w < |s.workers| ==> WorkerShape(b, s.workers[w])
  }

  ghost predicate WorkerShape(b: Block, w: Worker) {
    var n := |b.graph|;
    match w
    case Running(_, id, _) => id < n
    case Consuming(_, id, e, next, push) =>
      && id < n && e <= |b.graph[id]|
      && (next.Some? ==> next.value < n)
      && (push.Some? ==> push.value < n && next.Some?)
    case _ => true
  }

  /** One step of worker w. A worker waiting in waitPop on an empty queue is one that is not scheduled;
      when it is, its 10 ms are over and it gets INVALID_ID. */
  function Step(b: Block, s: State, w: nat): State
    requires Shape(b, s) && w < |s.workers|
  {
    match s.workers[w]
    case Idle =>
      Goto(s, w, if s.exeCnt >= |b.txs| then Exited else Popping(0))
    case Exited => s
    case Popping(c) =>
      if s.queue == [] then Goto(s, w, Flushing(c))
      else Goto(s.(queue := s.queue[1..]), w, Running(c + 1, s.queue[0], []))
    case Flushing(c) =>
      Goto(s.(exeCnt := s.exeCnt + c), w, Idle)
    case Running(c, id, seen) =>
      (match b.txs[id].Act(seen)
       case Read(k) => Goto(s, w, Running(c, id, seen + [Lookup(s.store, k)]))
       case Write(k, v) => Goto(s.(store := s.store[k := v]), w, Running(c, id, seen + [None]))
       case Return(r) => Goto(s.(receipts := s.receipts[id := r]), w, Consuming(c, id, 0, None, None)))
    case Consuming(c, id, e, next, push) =>
      if push.Some? then
        Goto(s.(queue := s.queue + [push.value]), w, Consuming(c, id, e, next, None))
      else if e < |b.graph[id]| then
        var v := b.graph[id][e];
        var last := s.inDegree[v];
        var s' := s.(inDegree := s.inDegree[v := last - 1], applied := s.applied[id := s.applied[id] + 1]);
        if last != 1 then Goto(s', w, Consuming(c, id, e + 1, next, None))
        else if next.None? then Goto(s', w, Consuming(c, id, e + 1, Some(v), None))
        else Goto(s', w, Consuming(c, id, e + 1, next, Some(v)))
      else
        var s' := s.(totalConsume := s.totalConsume + 1, consumed := s.consumed + {id});
        if next.Some? then Goto(s', w, Running(c + 1, next.value, [])) else Goto(s', w, Popping(c))
  }

  function Goto(s: State, w: nat, to: Worker): State
    requires w < |s.workers|
  {
    s.(workers := s.workers[w := to])
  }

  lemma StepShape(b: Block, s: State, w: nat)
    requires Shape(b, s) && w < |s.workers|
    ensures Shape(b, Step(b, s, w)) && |Step(b, s, w).workers| == |s.workers|
  {
    match s.workers[w]
    case Running(_, _, _) => RunningShape(b, s, w);
    case Consuming(_, _, _, _, _) => ConsumingShape(b, s, w);
    case _ =>
  }

  lemma RunningShape(b: Block, s: State, w: nat)
    requires Shape(b, s) && w < |s.workers| && s.workers[w].Running?
    ensures Shape(b, Step(b, s, w)) && |Step(b, s, w).workers| == |s.workers|
  {
  }

  lemma ConsumingShape(b: Block, s: State, w: nat)
    requires Shape(b, s) && w < |s.workers| && s.workers[w].Consuming?
    ensures Shape(b, Step(b, s, w)) && |Step(b, s, w).workers| == |s.workers|
  {
  }
}
