/**
 The conflict graph that TxDAG::init builds from the critical fields of a block's transactions
 (libblockverifier/TxDAG.cpp, TxDAG.h), as functions on values, and what that graph guarantees.
 The classes of module TxDag compute exactly these values.
 */
module TxGraph {
  import opened Prelude

  /** A vertex id. The source's type is uint32_t; every id of a vertex lies below INVALID_ID. */
  type ID = nat
  const INVALID_ID: ID := 0xFFFF_FFFF

  /** A critical field. */
  type Key = string

  /** The critical fields of one transaction; None is the null list of a normal transaction. */
  type Criticals = Option<seq<Key>>

  /** Out-edges of every vertex, in the order in which they were added. */
  type Graph = seq<seq<ID>>

  /** The latest holder of each field, with the fallback set by a normal transaction. */
  datatype Latest = Latest(fields: map<Key, ID>, all: ID)
  {
    function Get(c: Key): ID {
      if c in fields then fields[c] else all
    }

    function Update(c: Key, id: ID): Latest {
      Latest(fields[c := id], all)
    }
  }

  function AddEdge(g: Graph, f: ID, t: ID): Graph
    requires f < |g|
  {
    g[f := g[f] + [t]]
  }

  /** Every holder is the id of one of n vertices, or INVALID_ID for the fallback. */
  ghost predicate InRange(latest: Latest, n: nat) {
    && (latest.all == INVALID_ID || latest.all < n)
    && forall c :: c in latest.fields ==> latest.fields[c] < n
  }

  /** Edges from the latest holder of each listed field, one per listing. */
  function AddHolders(g: Graph, latest: Latest, cs: seq<Key>, id: ID): (r: Graph)
    requires InRange(latest, |g|)
    ensures |r| == |g|
    decreases |cs|
  {
    if cs == [] then g
    else
      var before := AddHolders(g, latest, cs[..|cs| - 1], id);
      var p := latest.Get(cs[|cs| - 1]);
      if p != INVALID_ID then AddEdge(before, p, id) else before
  }

  function UpdateFields(latest: Latest, cs: seq<Key>, id: ID): (r: Latest)
    ensures r.all == latest.all
    ensures r.fields.Keys == latest.fields.Keys + set c | c in cs
    ensures forall n :: InRange(latest, n) && id < n ==> InRange(r, n)
    ensures forall c :: r.Get(c) == if c in cs then id else latest.Get(c)
    decreases |cs|
  {
    if cs == [] then latest
    else
      var before := UpdateFields(latest, cs[..|cs| - 1], id);
      assert cs == cs[..|cs| - 1] + [cs[|cs| - 1]];
      before.Update(cs[|cs| - 1], id)
  }

  /** How many entries of the latest-holder table name u. */
  function HolderCount(latest: Latest, u: ID): nat {
    |set c | c in latest.fields && latest.fields[c] == u| + if latest.all == u then 1 else 0
  }

  function Repeat(t: ID, n: nat): (r: seq<ID>)
    ensures |r| == n && forall i :: 0 <= i < n ==> r[i] == t
  {
    seq(n, _ => t)
  }

  /** Edges from every holder in the table, one per entry. */
  function AddAllHolders(g: Graph, latest: Latest, id: ID): (r: Graph)
    ensures |r| == |g|
  {
    seq(|g|, u requires 0 <= u < |g| => g[u] + Repeat(id, HolderCount(latest, u)))
  }

  datatype Builder = Builder(graph: Graph, latest: Latest)

  /** One turn of the loop in TxDAG::init. */
  function AddTx(b: Builder, id: ID, c: Criticals): (r: Builder)
    requires id < |b.graph| && InRange(b.latest, |b.graph|)
    ensures |r.graph| == |b.graph| && InRange(r.latest, |r.graph|)
  {
    match c
    case Some(cs) => Builder(AddHolders(b.graph, b.latest, cs, id), UpdateFields(b.latest, cs, id))
    case None => Builder(AddAllHolders(b.graph, b.latest, id), Latest(map[], id))
  }

  /** The first n turns of that loop. */
  function Build(txs: seq<Criticals>, n: nat): (b: Builder)
    requires n <= |txs|
    ensures |b.graph| == |txs| && InRange(b.latest, |b.graph|)
  {
    if n == 0 then Builder(seq(|txs|, _ => []), Latest(map[], INVALID_ID))
    else AddTx(Build(txs, n - 1), n - 1, txs[n - 1])
  }

  /** The finished conflict graph. */
  function ConflictGraph(txs: seq<Criticals>): Graph {
    Build(txs, |txs|).graph
  }

  ghost predicate Touches(c: Criticals, k: Key) {
    c.None? || k in c.value
  }

  /** Two transactions conflict when some field is critical to both. */
  ghost predicate Conflict(a: Criticals, b: Criticals) {
    exists k :: Touches(a, k) && Touches(b, k)
  }

  ghost predicate Edge(g: Graph, u: ID, v: ID) {
    u < |g| && v in g[u]
  }

  ghost predicate IsPath(g: Graph, p: seq<ID>) {
    |p| > 0 && forall i :: 0 <= i < |p| - 1 ==> Edge(g, p[i], p[i + 1])
  }

  ghost predicate Reaches(g: Graph, i: ID, j: ID) {
    exists p :: IsPath(g, p) && p[0] == i && p[|p| - 1] == j
  }

  lemma ReachesSelf(g: Graph, i: ID)
    ensures Reaches(g, i, i)
  {
    assert IsPath(g, [i]);
  }

  lemma ReachesStep(g: Graph, i: ID, u: ID, v: ID)
    requires Reaches(g, i, u) && Edge(g, u, v)
    ensures Reaches(g, i, v)
  {
    var p :| IsPath(g, p) && p[0] == i && p[|p| - 1] == u;
    var q := p + [v];
    assert IsPath(g, q);
  }

  /** The edges of g are also edges of h. */
  ghost predicate EdgesKept(g: Graph, h: Graph) {
    |g| == |h| && forall u: ID, v: ID :: Edge(g, u, v) ==> Edge(h, u, v)
  }

  lemma ReachesKept(g: Graph, h: Graph, i: ID, j: ID)
    requires EdgesKept(g, h) && Reaches(g, i, j)
    ensures Reaches(h, i, j)
  {
    var p :| IsPath(g, p) && p[0] == i && p[|p| - 1] == j;
    assert IsPath(h, p);
  }

  ghost predicate HoldsListed(latest: Latest, cs: seq<Key>, u: ID) {
    exists c :: c in cs && latest.Get(c) == u
  }

  /** AddHolders adds an edge from u exactly when u holds a listed field. */
  lemma {:induction false} AddHoldersEdges(g: Graph, latest: Latest, cs: seq<Key>, id: ID)
    requires InRange(latest, |g|) && |g| <= INVALID_ID
    ensures forall u: ID, v: ID :: Edge(AddHolders(g, latest, cs, id), u, v) <==>
        Edge(g, u, v) || (u < |g| && v == id && HoldsListed(latest, cs, u))
  {
    forall u: ID, v: ID
      ensures Edge(AddHolders(g, latest, cs, id), u, v) <==>
        Edge(g, u, v) || (u < |g| && v == id && HoldsListed(latest, cs, u))
    {
      AddHoldersEdge(g, latest, cs, id, u, v);
    }
  }

  lemma {:induction false} AddHoldersEdge(g: Graph, latest: Latest, cs: seq<Key>, id: ID, u: ID, v: ID)
    requires InRange(latest, |g|) && |g| <= INVALID_ID
    ensures Edge(AddHolders(g, latest, cs, id), u, v) <==>
            Edge(g, u, v) || (u < |g| && v == id && HoldsListed(latest, cs, u))
    decreases |cs|
  {
    if cs == [] {
      assert !HoldsListed(latest, cs, u);
    } else {
      var front, c := cs[..|cs| - 1], cs[|cs| - 1];
      var before, p := AddHolders(g, latest, front, id), latest.Get(c);
      AddHoldersEdge(g, latest, front, id, u, v);
      ListedMore(latest, cs, front, c, u);
      assert p == INVALID_ID || p < |g|;
      if p != INVALID_ID { EdgeAdded(before, p, id, u, v); }
    }
  }

  lemma ListedMore(latest: Latest, cs: seq<Key>, front: seq<Key>, c: Key, u: ID)
    requires cs == front + [c]
    ensures HoldsListed(latest, cs, u) <==> HoldsListed(latest, front, u) || latest.Get(c) == u
  {
    assert forall d :: d in cs <==> d in front || d == c;
    if HoldsListed(latest, front, u) {
      var d :| d in front && latest.Get(d) == u;
      assert d in cs;
    }
    assert c in cs;
  }

  lemma EdgeAdded(g: Graph, f: ID, t: ID, u: ID, v: ID)
    requires f < |g|
    ensures Edge(AddEdge(g, f, t), u, v) <==> Edge(g, u, v) || (u == f && v == t)
  {
    var h := AddEdge(g, f, t);
    if u == f {
      assert h[u] == g[u] + [t];
      assert v in h[u] <==> v in g[u] || v == t;
    }
  }

  lemma AddAllHoldersEdges(g: Graph, latest: Latest, id: ID)
    ensures var h := AddAllHolders(g, latest, id);
      forall u: ID, v: ID :: Edge(h, u, v) <==>
        Edge(g, u, v) ||
        (u < |g| && v == id && (latest.all == u || exists c :: c in latest.fields && latest.fields[c] == u))
  {
    var h := AddAllHolders(g, latest, id);
    forall u: ID, v: ID
      ensures Edge(h, u, v) <==>
        Edge(g, u, v) ||
        (u < |g| && v == id && (latest.all == u || exists c :: c in latest.fields && latest.fields[c] == u))
    {
      if u < |g| {
        var holders := set c | c in latest.fields && latest.fields[c] == u;
        var r := Repeat(id, HolderCount(latest, u));
        assert h[u] == g[u] + r;
        if c :| c in latest.fields && latest.fields[c] == u {
          assert c in holders;
          assert r[0] == id;
        } else {
          assert holders == {};
          if latest.all == u { assert r[0] == id; }
        }
      }
    }
  }

  /** What the loop of TxDAG::init keeps: holders are earlier transactions, and every transaction that
      touches a field has a path to that field's latest holder. */
  ghost predicate BuildInv(txs: seq<Criticals>, n: nat, b: Builder)
    requires n <= |txs|
  {
    && |b.graph| == |txs|
    && (forall u: ID, v: ID :: Edge(b.graph, u, v) ==> u < v < n && Conflict(txs[u], txs[v]))
    && (b.latest.all == INVALID_ID || (b.latest.all < n && txs[b.latest.all].None?))
    && (forall c :: c in b.latest.fields ==> b.latest.fields[c] < n && Touches(txs[b.latest.fields[c]], c))
    && (forall i, c :: 0 <= i < n && Touches(txs[i], c) ==>
          b.latest.Get(c) < n && Reaches(b.graph, i, b.latest.Get(c)))
    && (forall i :: 0 <= i < n && txs[i].None? ==>
          b.latest.all < n && Reaches(b.graph, i, b.latest.all))
    && (forall i, j :: 0 <= i < j < n && Conflict(txs[i], txs[j]) ==> Reaches(b.graph, i, j))
  }

  /** A transaction that conflicts with an earlier one gets an edge from something that one reaches. */
  lemma NewPath(txs: seq<Criticals>, n: nat, b: Builder, i: nat)
    requires i < n < |txs| <= INVALID_ID && BuildInv(txs, n, b) && Conflict(txs[i], txs[n])
    ensures InRange(b.latest, |b.graph|)
    ensures Reaches(AddTx(b, n, txs[n]).graph, i, n)
  {
    var g, h := b.graph, AddTx(b, n, txs[n]).graph;
    var k :| Touches(txs[i], k) && Touches(txs[n], k);
    var u := b.latest.Get(k);
    match txs[n] {
      case Some(cs) => AddHoldersEdges(g, b.latest, cs, n);
      case None => AddAllHoldersEdges(g, b.latest, n);
    }
    assert EdgesKept(g, h);
    ReachesKept(g, h, i, u);
    ReachesStep(h, i, u, n);
  }

  lemma NewEdges(txs: seq<Criticals>, n: nat, b: Builder)
    requires n < |txs| <= INVALID_ID && BuildInv(txs, n, b)
    ensures InRange(b.latest, |b.graph|)
    ensures EdgesKept(b.graph, AddTx(b, n, txs[n]).graph)
    ensures forall u: ID, v: ID :: Edge(AddTx(b, n, txs[n]).graph, u, v) ==> u < v < n + 1 && Conflict(txs[u], txs[v])
  {
    var g, h := b.graph, AddTx(b, n, txs[n]).graph;
    match txs[n] {
      case Some(cs) => AddHoldersEdges(g, b.latest, cs, n);
      case None => AddAllHoldersEdges(g, b.latest, n);
    }
    forall u: ID, v: ID | Edge(h, u, v)
      ensures u < v < n + 1 && Conflict(txs[u], txs[v])
    {
      if !Edge(g, u, v) {
        if u == b.latest.all {
          var c := if txs[n].None? then "" else
            var c :| c in txs[n].value && b.latest.Get(c) == u; c;
          assert Touches(txs[u], c) && Touches(txs[n], c);
        } else {
          var c :| c in b.latest.fields && b.latest.fields[c] == u && Touches(txs[n], c);
          assert Touches(txs[u], c);
        }
      }
    }
  }

  lemma NewHolders(txs: seq<Criticals>, m: nat, b: Builder, i: nat, c: Key)
    requires i <= m < |txs| <= INVALID_ID && BuildInv(txs, m, b) && Touches(txs[i], c)
    ensures InRange(b.latest, |b.graph|)
    ensures var b' := AddTx(b, m, txs[m]);
      b'.latest.Get(c) <= m && Reaches(b'.graph, i, b'.latest.Get(c))
  {
    var b' := AddTx(b, m, txs[m]);
    if i == m {
      ReachesSelf(b'.graph, m);
    } else if Touches(txs[m], c) {
      NewPath(txs, m, b, i);
    } else {
      NewEdges(txs, m, b);
      ReachesKept(b.graph, b'.graph, i, b.latest.Get(c));
    }
  }

  lemma NewAll(txs: seq<Criticals>, m: nat, b: Builder, i: nat)
    requires i <= m < |txs| <= INVALID_ID && BuildInv(txs, m, b) && txs[i].None?
    ensures InRange(b.latest, |b.graph|)
    ensures var b' := AddTx(b, m, txs[m]);
      b'.latest.all <= m && Reaches(b'.graph, i, b'.latest.all)
  {
    var b' := AddTx(b, m, txs[m]);
    if i == m {
      ReachesSelf(b'.graph, m);
    } else if txs[m].None? {
      assert Touches(txs[i], "") && Touches(txs[m], "");
      NewPath(txs, m, b, i);
    } else {
      NewEdges(txs, m, b);
      ReachesKept(b.graph, b'.graph, i, b.latest.all);
    }
  }

  lemma NewConflicts(txs: seq<Criticals>, m: nat, b: Builder, i: nat, j: nat)
    requires i < j <= m < |txs| <= INVALID_ID && BuildInv(txs, m, b) && Conflict(txs[i], txs[j])
    ensures InRange(b.latest, |b.graph|)
    ensures Reaches(AddTx(b, m, txs[m]).graph, i, j)
  {
    if j == m {
      NewPath(txs, m, b, i);
    } else {
      NewEdges(txs, m, b);
      ReachesKept(b.graph, AddTx(b, m, txs[m]).graph, i, j);
    }
  }

  /** One turn of the loop keeps the invariant. */
  lemma AddTxKeepsInv(txs: seq<Criticals>, m: nat, b: Builder, n: nat, b': Builder)
    requires m < |txs| <= INVALID_ID && BuildInv(txs, m, b) && n == m + 1
    requires InRange(b.latest, |b.graph|) && b' == AddTx(b, m, txs[m])
    ensures BuildInv(txs, n, b')
  {
    NewEdges(txs, m, b);
    forall i, c | 0 <= i <= m && Touches(txs[i], c) { NewHolders(txs, m, b, i, c); }
    forall i | 0 <= i <= m && txs[i].None? { NewAll(txs, m, b, i); }
    forall i, j | 0 <= i < j <= m && Conflict(txs[i], txs[j]) { NewConflicts(txs, m, b, i, j); }
  }

  lemma {:induction false} BuildKeepsInv(txs: seq<Criticals>, n: nat, b: Builder)
    requires n <= |txs| <= INVALID_ID && b == Build(txs, n)
    ensures BuildInv(txs, n, b)
  {
    if n == 0 {
    } else {
      var m := n - 1;
      var before := Build(txs, m);
      BuildKeepsInv(txs, m, before);
      AddTxKeepsInv(txs, m, before, n, b);
    }
  }

  /**
   Completeness and soundness of the graph. Transactions i < j that conflict are joined by a path from
   i to j, although only edges from the latest holder are added. Every edge runs from a smaller to a
   larger id and joins two transactions that do conflict.
   */
  lemma ConflictGraphComplete(txs: seq<Criticals>)
    requires |txs| <= INVALID_ID
    ensures |ConflictGraph(txs)| == |txs|
    ensures forall i, j :: 0 <= i < j < |txs| && Conflict(txs[i], txs[j]) ==> Reaches(ConflictGraph(txs), i, j)
    ensures forall u: ID, v: ID :: Edge(ConflictGraph(txs), u, v) ==> u < v < |txs| && Conflict(txs[u], txs[v])
  {
    BuildKeepsInv(txs, |txs|, Build(txs, |txs|));
  }

  /** The conflict relation in the source's own words: two normal transactions always conflict, a normal
      one conflicts with any that lists a field, and one with an empty list conflicts with nothing. */
  lemma ConflictCases(a: Criticals, b: Criticals)
    ensures Conflict(a, b) <==>
      match (a, b)
      case (None, None) => true
      case (None, Some(cs)) => cs != []
      case (Some(cs), None) => cs != []
      case (Some(cs), Some(ds)) => exists k :: k in cs && k in ds
  {
    match (a, b) {
      case (None, None) => assert Touches(a, "") && Touches(b, "");
      case (None, Some(cs)) => if cs != [] { assert Touches(a, cs[0]) && Touches(b, cs[0]); }
      case (Some(cs), None) => if cs != [] { assert Touches(a, cs[0]) && Touches(b, cs[0]); }
      case (Some(cs), Some(ds)) => if k :| k in cs && k in ds { assert Touches(a, k) && Touches(b, k); }
    }
  }
}
