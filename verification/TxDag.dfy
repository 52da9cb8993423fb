/**
 The classes that build and drain the conflict graph in place (libblockverifier/DAG.cpp, DAG.h, TxDAG.cpp,
 TxDAG.h), proved against the value-level graph of TxGraph and the state machine of Scheduler.
 */
module TxDag {
  import opened Prelude
  import opened TxGraph
  import opened Scheduler
  import Safety = ScheduleSafety
  import opened Serializability

  /** An added edge raises one in-degree. */
  lemma {:induction false} PendingAddEdge(g: Graph, f: ID, t: ID, v: ID, k: nat)
    requires f < |g| && k <= |g|
    ensures Pending(TxGraph.AddEdge(g, f, t), seq(|g|, _ => 0), v, k)
         == Pending(g, seq(|g|, _ => 0), v, k) + if f < k && v == t then 1 else 0
  {
    if k == 0 {
    } else {
      PendingAddEdge(g, f, t, v, k - 1);
      var h := TxGraph.AddEdge(g, f, t);
      assert g[k - 1][0..] == g[k - 1] && h[k - 1][0..] == h[k - 1];
    }
  }

  lemma InDegreesAddEdge(g: Graph, f: ID, t: ID)
    requires f < |g| && t < |g|
    ensures InDegrees(TxGraph.AddEdge(g, f, t)) == InDegrees(g)[t := InDegrees(g)[t] + 1]
  {
    var h := TxGraph.AddEdge(g, f, t);
    forall v | 0 <= v < |g|
      ensures InDegrees(h)[v] == InDegrees(g)[t := InDegrees(g)[t] + 1][v]
    {
      PendingAddEdge(g, f, t, v, |g|);
    }
  }

  lemma {:induction false} InDegreesEmpty(g: Graph, v: ID, k: nat)
    requires k <= |g| && forall u :: 0 <= u < |g| ==> g[u] == []
    ensures Pending(g, seq(|g|, _ => 0), v, k) == 0
  {
    if k == 0 {
    } else {
      InDegreesEmpty(g, v, k - 1);
    }
  }

  class Vertex {
    var inDegree: int
    var outEdge: seq<ID>

    constructor ()
      ensures inDegree == 0 && outEdge == []
    {
      inDegree, outEdge := 0, [];
    }
  }

  /** The latest-holder table of TxDAG::init. */
  class CriticalField {
    var criticals: map<Key, ID>
    var criticalAll: ID

    function State(): Latest
      reads this
    {
      Latest(criticals, criticalAll)
    }

    constructor ()
      ensures State() == Latest(map[], INVALID_ID)
    {
      criticals, criticalAll := map[], INVALID_ID;
    }

    method Get(c: Key) returns (id: ID)
      ensures id == State().Get(c)
    {
      if c !in criticals {
        if criticalAll != INVALID_ID { return criticalAll; }
        return INVALID_ID;
      }
      return criticals[c];
    }

    method Update(c: Key, txId: ID)
      modifies this
      ensures State() == old(State()).Update(c, txId)
    {
      criticals := criticals[c := txId];
    }

    method SetCriticalAll(id: ID)
      modifies this
      ensures State() == Latest(map[], id)
    {
      criticalAll := id;
      criticals := map[];
    }
  }

  class DAG {
    var vtxs: seq<Vertex>
    var topLevel: seq<ID>
    var totalVtxs: nat
    var totalConsume: nat

    /** The vertices are distinct objects. */
    ghost predicate Valid()
      reads this
    {
      && totalVtxs == |vtxs|
      && forall i, j :: 0 <= i < j < |vtxs| ==> vtxs[i] != vtxs[j]
    }

    function Edges(): (g: Graph)
      reads this, vtxs
      ensures |g| == |vtxs|
    {
      seq(|vtxs|, i requires 0 <= i < |vtxs| reads this, vtxs => vtxs[i].outEdge)
    }

    function Degrees(): (d: seq<int>)
      reads this, vtxs
      ensures |d| == |vtxs|
    {
      seq(|vtxs|, i requires 0 <= i < |vtxs| reads this, vtxs => vtxs[i].inDegree)
    }

    /** Every in-degree counts the incoming edges. */
    ghost predicate Counted()
      reads this, vtxs
    {
      Degrees() == InDegrees(Edges())
    }

    constructor ()
      ensures Valid() && vtxs == [] && topLevel == [] && totalConsume == 0
    {
      vtxs, topLevel, totalVtxs, totalConsume := [], [], 0, 0;
    }

    /** Fresh vertices without edges. The ready queue is left as it is. */
    method Init(maxSize: nat)
      modifies this
      ensures Valid() && fresh(vtxs) && |vtxs| == maxSize && totalConsume == 0 && topLevel == old(topLevel)
      ensures Edges() == seq(maxSize, _ => []) && Counted()
    {
      vtxs := [];
      for i := 0 to maxSize
        invariant |vtxs| == i && fresh(vtxs) && topLevel == old(topLevel)
        invariant forall j, k :: 0 <= j < k < |vtxs| ==> vtxs[j] != vtxs[k]
        invariant forall j :: 0 <= j < i ==> vtxs[j].outEdge == [] && vtxs[j].inDegree == 0
      {
        var v := new Vertex();
        vtxs := vtxs + [v];
      }
      totalVtxs := maxSize;
      totalConsume := 0;
      forall v | 0 <= v < maxSize
        ensures InDegrees(Edges())[v] == 0
      {
        InDegreesEmpty(Edges(), v, maxSize);
      }
    }

    /** The source indexes out of bounds when exactly one end is no vertex; both or neither must be. */
    method AddEdge(f: ID, t: ID)
      requires Valid() && (f < |vtxs| <==> t < |vtxs|)
      modifies vtxs
      ensures f >= |vtxs| ==> Edges() == old(Edges()) && Degrees() == old(Degrees())
      ensures f < |vtxs| ==> Edges() == TxGraph.AddEdge(old(Edges()), f, t)
      ensures f < |vtxs| ==> Degrees() == old(Degrees())[t := old(Degrees())[t] + 1]
      ensures old(Counted()) ==> Counted()
    {
      if f >= |vtxs| && t >= |vtxs| { return; }
      vtxs[f].outEdge := vtxs[f].outEdge + [t];
      vtxs[t].inDegree := vtxs[t].inDegree + 1;
      InDegreesAddEdge(old(Edges()), f, t);
      assert Edges() == TxGraph.AddEdge(old(Edges()), f, t);
    }

    /** Queue the vertices without incoming edges, in order. */
    method Generate()
      requires Valid()
      modifies this
      ensures Valid() && vtxs == old(vtxs) && totalConsume == old(totalConsume)
      ensures topLevel == old(topLevel) + Ready(Degrees(), |vtxs|)
    {
      ghost var d := Degrees();
      var ready: seq<ID> := [];
      for id := 0 to |vtxs|
        invariant ready == Ready(d, id)
      {
        assert vtxs[id].inDegree == d[id];
        if vtxs[id].inDegree == 0 { ready := ready + [id]; }
      }
      topLevel := topLevel + ready;
      assert Degrees() == d;
    }

    /** try_pop inside waitPop. */
    method TryPop() returns (top: ID)
      modifies this
      ensures vtxs == old(vtxs) && totalConsume == old(totalConsume) && totalVtxs == old(totalVtxs)
      ensures old(topLevel) == [] ==> top == INVALID_ID && topLevel == []
      ensures old(topLevel) != [] ==> old(topLevel) == [top] + topLevel
    {
      top := INVALID_ID;
      if topLevel != [] {
        top := topLevel[0];
        topLevel := topLevel[1..];
      }
    }

    /** DAG::consume run without interruption. Its effect is that of the state machine's worker taking all
        its steps for this vertex in a row: see ConsumeAlone. */
    method Consume(id: ID) returns (nextId: ID)
      requires Valid() && id < |vtxs| && |vtxs| < INVALID_ID
      requires forall i :: 0 <= i < |vtxs[id].outEdge| ==> vtxs[id].outEdge[i] < |vtxs|
      modifies this, vtxs
      ensures Valid() && vtxs == old(vtxs) && Edges() == old(Edges()) && totalConsume == old(totalConsume) + 1
      ensures (Degrees(), topLevel, if nextId == INVALID_ID then None else Some(nextId))
           == Released(old(Degrees()), old(topLevel), None, old(vtxs[id].outEdge))
    {
      nextId := INVALID_ID;
      var producedNum := 0;
      var lastDegree: int := INVALID_ID;
      ghost var out := vtxs[id].outEdge;
      assert out[0..] == out;
      for k := 0 to |vtxs[id].outEdge|
        invariant vtxs == old(vtxs) && Valid() && totalConsume == old(totalConsume)
        invariant Edges() == old(Edges()) && vtxs[id].outEdge == out
        invariant nextId == INVALID_ID <==> producedNum == 0
        invariant nextId == INVALID_ID || nextId < |vtxs|
        invariant Released(Degrees(), topLevel, if nextId == INVALID_ID then None else Some(nextId), out[k..])
               == Released(old(Degrees()), old(topLevel), None, out)
      {
        var t := vtxs[id].outEdge[k];
        ghost var before, queue, next := Degrees(), topLevel, if nextId == INVALID_ID then None else Some(nextId);
        assert out[k..][0] == t && out[k..][1..] == out[k + 1..];
        lastDegree := vtxs[t].inDegree;
        vtxs[t].inDegree := lastDegree - 1;
        assert Degrees() == before[t := before[t] - 1];
        assert Edges() == old(Edges());
        if lastDegree == 1 {
          producedNum := producedNum + 1;
          if producedNum == 1 {
            nextId := t;
          } else {
            topLevel := topLevel + [t];
          }
        }
        assert Degrees() == before[t := before[t] - 1];
        assert Released(before, queue, next, out[k..])
            == Released(Degrees(), topLevel, if nextId == INVALID_ID then None else Some(nextId), out[k + 1..]);
      }
      ghost var d := Degrees();
      assert out[|out|..] == [];
      totalConsume := totalConsume + 1;
      assert Degrees() == d;
    }
  }

  /** In-degrees, ready queue and vertex kept in hand after decrementing along the given edges. */
  function Released(d: seq<int>, queue: seq<ID>, next: Option<ID>, out: seq<ID>): (seq<int>, seq<ID>, Option<ID>)
    decreases |out|
  {
    if out == [] then (d, queue, next)
    else if out[0] >= |d| then (d, queue, next)
    else
      var d' := d[out[0] := d[out[0]] - 1];
      if d[out[0]] != 1 then Released(d', queue, next, out[1..])
      else if next.None? then Released(d', queue, Some(out[0]), out[1..])
      else Released(d', queue + [out[0]], next, out[1..])
  }

  /** The fields of `done` that u holds. */
  function HeldFields(fields: map<Key, ID>, done: set<Key>, u: ID): set<Key> {
    set c | c in done && c in fields && fields[c] == u
  }

  function EdgesFor(g: Graph, fields: map<Key, ID>, done: set<Key>, id: ID): (r: Graph)
    ensures |r| == |g|
  {
    seq(|g|, u requires 0 <= u < |g| => g[u] + Repeat(id, |HeldFields(fields, done, u)|))
  }

  lemma EdgesForNone(g: Graph, fields: map<Key, ID>, id: ID)
    ensures EdgesFor(g, fields, {}, id) == g
  {
    forall u | 0 <= u < |g|
      ensures EdgesFor(g, fields, {}, id)[u] == g[u]
    {
      assert HeldFields(fields, {}, u) == {};
    }
  }

  lemma EdgesForNext(g: Graph, fields: map<Key, ID>, done: set<Key>, id: ID, c: Key)
    requires c in fields && c !in done && fields[c] < |g|
    ensures EdgesFor(g, fields, done + {c}, id) == TxGraph.AddEdge(EdgesFor(g, fields, done, id), fields[c], id)
  {
    forall u | 0 <= u < |g|
      ensures EdgesFor(g, fields, done + {c}, id)[u] == TxGraph.AddEdge(EdgesFor(g, fields, done, id), fields[c], id)[u]
    {
      HeldNext(fields, done, c, u);
      var n := |HeldFields(fields, done, u)|;
      assert Repeat(id, n + 1) == Repeat(id, n) + [id];
    }
  }

  lemma HeldNext(fields: map<Key, ID>, done: set<Key>, c: Key, u: ID)
    requires c in fields && c !in done
    ensures |HeldFields(fields, done + {c}, u)| == |HeldFields(fields, done, u)| + if u == fields[c] then 1 else 0
  {
    if u == fields[c] {
      assert HeldFields(fields, done + {c}, u) == HeldFields(fields, done, u) + {c};
    } else {
      assert HeldFields(fields, done + {c}, u) == HeldFields(fields, done, u);
    }
  }

  /** Once every field has been visited and the fallback added, the graph is AddAllHolders. */
  lemma EdgesForAll(g: Graph, latest: Latest, id: ID)
    requires InRange(latest, |g|) && |g| <= INVALID_ID
    ensures var h := EdgesFor(g, latest.fields, latest.fields.Keys, id);
      AddAllHolders(g, latest, id) == if latest.all != INVALID_ID then TxGraph.AddEdge(h, latest.all, id) else h
  {
    var h := EdgesFor(g, latest.fields, latest.fields.Keys, id);
    var r := if latest.all != INVALID_ID then TxGraph.AddEdge(h, latest.all, id) else h;
    forall u | 0 <= u < |g|
      ensures AddAllHolders(g, latest, id)[u] == r[u]
    {
      var held := HeldFields(latest.fields, latest.fields.Keys, u);
      assert held == set c | c in latest.fields && latest.fields[c] == u;
      assert Repeat(id, |held| + 1) == Repeat(id, |held|) + [id];
    }
  }

  class TxDAG {
    var dag: DAG
    var exeCnt: nat
    var totalParaTxs: nat

    constructor ()
      ensures fresh(dag) && dag.Valid() && dag.topLevel == [] && exeCnt == 0 && totalParaTxs == 0
    {
      dag := new DAG();
      exeCnt, totalParaTxs := 0, 0;
    }

    /** Builds the conflict graph of the given transactions and queues those that wait for none. */
    method Init(txs: seq<Criticals>)
      requires |txs| < INVALID_ID && dag.Valid()
      modifies this, dag
      ensures dag == old(dag) && dag.Valid() && fresh(dag.vtxs) && totalParaTxs == |txs| && exeCnt == old(exeCnt)
      ensures dag.Edges() == ConflictGraph(txs) && dag.Degrees() == InDegrees(ConflictGraph(txs))
      ensures dag.topLevel == old(dag.topLevel) + Ready(dag.Degrees(), |txs|) && dag.totalConsume == 0
    {
      dag.Init(|txs|);
      AddTransactions(dag, txs);
      ghost var edges, degrees := dag.Edges(), dag.Degrees();
      dag.Generate();
      assert dag.Edges() == edges && dag.Degrees() == degrees;
      totalParaTxs := |txs|;
    }
  }

  /** The loop of TxDAG::init. */
  method AddTransactions(dag: DAG, txs: seq<Criticals>)
    requires dag.Valid() && dag.Counted() && |dag.vtxs| == |txs| < INVALID_ID && dag.Edges() == seq(|txs|, _ => [])
    modifies dag.vtxs
    ensures dag.Counted() && dag.Edges() == ConflictGraph(txs)
  {
    var latestCriticals := new CriticalField();
    for id := 0 to |txs|
      invariant dag.Counted() && fresh(latestCriticals)
      invariant Builder(dag.Edges(), latestCriticals.State()) == Build(txs, id)
    {
      AddTransaction(dag, latestCriticals, txs[id], id);
    }
  }

  /** The set-up in parallelExecuteBlock: a new TxDAG for the block, initialised and ready to be drained.
      It is the initial state of the state machine, for any number of threads. */
  method SetUp(txs: seq<Tx>, s0: Store, threads: nat) returns (txDag: TxDAG)
    requires |txs| < INVALID_ID
    ensures fresh(txDag) && txDag.exeCnt == 0 && txDag.totalParaTxs == |txs|
    ensures var s := Scheduler.Init(Block(txs, s0, ConflictGraph(CriticalsOf(txs))), threads);
      && txDag.dag.Edges() == ConflictGraph(CriticalsOf(txs))
      && txDag.dag.Degrees() == s.inDegree && txDag.dag.topLevel == s.queue
      && txDag.dag.totalConsume == s.totalConsume && txDag.exeCnt == s.exeCnt
  {
    txDag := new TxDAG();
    txDag.Init(CriticalsOf(txs));
    assert [] + Ready(txDag.dag.Degrees(), |txs|) == Ready(txDag.dag.Degrees(), |txs|);
  }

  /** One turn of the loop of TxDAG::init. */
  method AddTransaction(dag: DAG, latest: CriticalField, criticals: Criticals, id: ID)
    requires dag.Valid() && dag.Counted() && id < |dag.vtxs| < INVALID_ID && InRange(latest.State(), |dag.vtxs|)
    modifies latest, dag.vtxs
    ensures dag.Counted() && InRange(old(latest.State()), |old(dag.Edges())|)
    ensures Builder(dag.Edges(), latest.State()) == AddTx(old(Builder(dag.Edges(), latest.State())), id, criticals)
  {
    match criticals {
      case Some(cs) =>
        AddCritical(dag, latest, cs, id);
        ghost var h := dag.Edges();
        UpdateCritical(latest, cs, id);
        assert dag.Edges() == h && dag.Counted();
      case None =>
        AddNormal(dag, latest, id);
        ghost var h := dag.Edges();
        latest.SetCriticalAll(id);
        assert dag.Edges() == h && dag.Counted();
    }
  }

  method UpdateCritical(latest: CriticalField, cs: seq<Key>, id: ID)
    modifies latest
    ensures latest.State() == UpdateFields(old(latest.State()), cs, id)
  {
    for k := 0 to |cs|
      invariant latest.State() == UpdateFields(old(latest.State()), cs[..k], id)
    {
      assert cs[..k + 1][..k] == cs[..k];
      latest.Update(cs[k], id);
    }
    assert cs[..|cs|] == cs;
  }

  /** Edges from the latest holders of the listed fields. */
  method AddCritical(dag: DAG, latest: CriticalField, cs: seq<Key>, id: ID)
    requires dag.Valid() && dag.Counted() && id < |dag.vtxs| < INVALID_ID && InRange(latest.State(), |dag.vtxs|)
    modifies dag.vtxs
    ensures dag.Counted() && InRange(latest.State(), |old(dag.Edges())|)
    ensures dag.Edges() == AddHolders(old(dag.Edges()), latest.State(), cs, id)
  {
    ghost var g := dag.Edges();
    for k := 0 to |cs|
      invariant dag.Counted() && dag.Edges() == AddHolders(g, latest.State(), cs[..k], id)
    {
      assert cs[..k + 1][..k] == cs[..k];
      var pId := latest.Get(cs[k]);
      if pId != INVALID_ID {
        dag.AddEdge(pId, id);
      }
    }
    assert cs[..|cs|] == cs;
  }

  /** Edges from every field's holder; the order of the visits is free. */
  method AddFields(dag: DAG, fields: map<Key, ID>, id: ID)
    requires dag.Valid() && dag.Counted() && id < |dag.vtxs| && forall c :: c in fields ==> fields[c] < |dag.vtxs|
    modifies dag.vtxs
    ensures dag.Counted() && dag.Edges() == EdgesFor(old(dag.Edges()), fields, fields.Keys, id)
  {
    ghost var g := dag.Edges();
    var todo := fields.Keys;
    ghost var done: set<Key> := {};
    EdgesForNone(g, fields, id);
    while todo != {}
      invariant todo + done == fields.Keys && todo !! done
      invariant dag.Counted() && dag.Edges() == EdgesFor(g, fields, done, id)
      decreases |todo|
    {
      var c :| c in todo;
      EdgesForNext(g, fields, done, id, c);
      Moved(fields.Keys, todo, done, c);
      dag.AddEdge(fields[c], id);
      todo, done := todo - {c}, done + {c};
    }
    assert done == fields.Keys;
  }

  lemma Moved(all: set<Key>, todo: set<Key>, done: set<Key>, c: Key)
    requires todo + done == all && todo !! done && c in todo
    ensures c in all && c !in done && (todo - {c}) + (done + {c}) == all && todo - {c} !! done + {c}
    ensures |todo - {c}| < |todo|
  {
  }

  /** Edges from every holder in the table, then from the fallback. */
  method AddNormal(dag: DAG, latest: CriticalField, id: ID)
    requires dag.Valid() && dag.Counted() && id < |dag.vtxs| < INVALID_ID && InRange(latest.State(), |dag.vtxs|)
    modifies dag.vtxs
    ensures dag.Counted() && InRange(latest.State(), |old(dag.Edges())|)
    ensures dag.Edges() == AddAllHolders(old(dag.Edges()), latest.State(), id)
  {
    EdgesForAll(dag.Edges(), latest.State(), id);
    AddFields(dag, latest.criticals, id);
    if latest.criticalAll != INVALID_ID {
      dag.AddEdge(latest.criticalAll, id);
    }
  }

  /** State t is s after worker w has finished the vertex it is consuming, as Released says. */
  ghost predicate ConsumedAs(b: Block, s: State, w: nat, t: State)
    requires Shape(b, s) && w < |s.workers| && s.workers[w].Consuming?
  {
    var x := s.workers[w];
    var (d, q, next) := Released(s.inDegree, s.queue, x.next, b.graph[x.id][x.edge..]);
    && t.inDegree == d && t.queue == q && t.totalConsume == s.totalConsume + 1
    && t.store == s.store && t.receipts == s.receipts && t.exeCnt == s.exeCnt
    && t.workers == s.workers[w := AfterConsume(x.count, next)]
  }

  function AfterConsume(count: nat, next: Option<ID>): Worker {
    match next case Some(v) => Running(count + 1, v, []) case None => Popping(count)
  }

  lemma ConsumedAsDecrement(b: Block, s: State, w: nat, s1: State, t: State, id: ID, v: ID)
    requires Shape(b, s) && Shape(b, s1) && w < |s.workers| && s.workers[w].Consuming?
    requires s.workers[w].id == id && s.workers[w].edge < |b.graph[id]| && v == b.graph[id][s.workers[w].edge]
    requires Safety.Decremented(b, s, s1, w, id, v) && s1.workers[w].push.None? && ConsumedAs(b, s1, w, t)
    ensures ConsumedAs(b, s, w, t)
  {
    var x, y := s.workers[w], s1.workers[w];
    var out := b.graph[id][x.edge..];
    assert out[0] == v && out[1..] == b.graph[id][y.edge..];
    ReleasedStep(s.inDegree, s.queue, x.next, out);
    assert s1.workers[w := t.workers[w]] == s.workers[w := t.workers[w]];
  }

  lemma ReleasedStep(d: seq<int>, queue: seq<ID>, next: Option<ID>, out: seq<ID>)
    requires out != [] && out[0] < |d|
    ensures var v := out[0];
      Released(d, queue, next, out) ==
      Released(d[v := d[v] - 1],
               if d[v] == 1 && next.Some? then queue + [v] else queue,
               if d[v] == 1 && next.None? then Some(v) else next,
               out[1..])
  {
  }

  lemma ConsumedAsPush(b: Block, s: State, w: nat, s1: State, s2: State, t: State, id: ID, v: ID)
    requires Shape(b, s) && Shape(b, s1) && Shape(b, s2) && w < |s.workers| && s.workers[w].Consuming?
    requires s.workers[w].id == id && s.workers[w].edge < |b.graph[id]| && v == b.graph[id][s.workers[w].edge]
    requires Safety.Decremented(b, s, s1, w, id, v) && s1.workers[w].push.Some?
    requires s2 == Goto(s1.(queue := s1.queue + [v]), w, s1.workers[w].(push := None)) && ConsumedAs(b, s2, w, t)
    ensures ConsumedAs(b, s, w, t)
  {
    var x := s.workers[w];
    assert b.graph[id][x.edge..][0] == v && b.graph[id][x.edge..][1..] == b.graph[id][x.edge + 1..];
    assert s2.workers[w := t.workers[w]] == s.workers[w := t.workers[w]];
  }

  lemma ConsumedAsEnd(b: Block, s: State, w: nat)
    requires Shape(b, s) && w < |s.workers| && s.workers[w].Consuming? && s.workers[w].push.None?
    requires s.workers[w].edge == |b.graph[s.workers[w].id]|
    ensures ConsumedAs(b, s, w, Step(b, s, w))
  {
  }

  /** A worker that alone takes its remaining turns for a vertex does to in-degrees, queue and counter what
      DAG.Consume does, and goes on with the vertex that Consume returns. */
  lemma {:induction false} ConsumeAlone(b: Block, s: State, w: nat) returns (turns: nat)
    requires Shape(b, s) && w < |s.workers| && s.workers[w].Consuming? && s.workers[w].push.None?
    ensures ConsumedAs(b, s, w, Run(b, s, seq(turns, _ => w)))
    decreases |b.graph[s.workers[w].id]| - s.workers[w].edge
  {
    var x, s1 := s.workers[w], Step(b, s, w);
    StepShape(b, s, w);
    if x.edge == |b.graph[x.id]| {
      turns := 1;
      RunRepeat(b, s, w, 0);
      ConsumedAsEnd(b, s, w);
    } else {
      var v := b.graph[x.id][x.edge];
      Safety.DecrementEffect(b, s, w, s1);
      if s1.workers[w].push.None? {
        var rest := ConsumeAlone(b, s1, w);
        turns := rest + 1;
        RunRepeat(b, s, w, rest);
        ConsumedAsDecrement(b, s, w, s1, Run(b, s, seq(turns, _ => w)), x.id, v);
      } else {
        var rest := PushThenConsume(b, s, w, s1);
        turns := rest + 1;
        RunRepeat(b, s, w, rest);
      }
    }
  }

  lemma {:induction false} PushThenConsume(b: Block, s: State, w: nat, s1: State) returns (turns: nat)
    requires Shape(b, s) && Shape(b, s1) && w < |s.workers| && s.workers[w].Consuming?
    requires s.workers[w].edge < |b.graph[s.workers[w].id]|
    requires Safety.Decremented(b, s, s1, w, s.workers[w].id, b.graph[s.workers[w].id][s.workers[w].edge])
    requires s1.workers[w].push.Some?
    ensures ConsumedAs(b, s, w, Run(b, s1, seq(turns, _ => w)))
    decreases |b.graph[s.workers[w].id]| - s.workers[w].edge, 0
  {
    var s2 := Step(b, s1, w);
    StepShape(b, s1, w);
    var rest := ConsumeAlone(b, s2, w);
    turns := rest + 1;
    RunRepeat(b, s1, w, rest);
    ConsumedAsPush(b, s, w, s1, s2, Run(b, s1, seq(turns, _ => w)), s.workers[w].id, s1.workers[w].push.value);
  }

  lemma RunRepeat(b: Block, s: State, w: nat, turns: nat)
    requires Shape(b, s) && w < |s.workers|
    ensures Shape(b, Step(b, s, w)) && |Step(b, s, w).workers| == |s.workers|
    ensures Run(b, s, seq(turns + 1, _ => w)) == Run(b, Step(b, s, w), seq(turns, _ => w))
  {
    StepShape(b, s, w);
    assert seq(turns + 1, _ => w)[1..] == seq(turns, _ => w);
  }
}
