/**
 Any parallel run of a block gives the store and the receipts of executing its transactions one after
 the other, provided that in this serial execution each transaction reads and writes only its critical fields.
 */
module Serializability {
  import opened Prelude
  import opened TxGraph
  import opened Scheduler
  import opened ScheduleSafety

  /** The run of a sequence of worker steps. */
  function Run(b: Block, s: State, schedule: seq<nat>): (r: State)
    requires Shape(b, s) && forall i :: 0 <= i < |schedule| ==> schedule[i] < |s.workers|
    ensures Shape(b, r) && |r.workers| == |s.workers|
    decreases |schedule|
  {
    if schedule == [] then s
    else
      StepShape(b, s, schedule[0]);
      Run(b, Step(b, s, schedule[0]), schedule[1..])
  }

  lemma {:induction false} SumZero(ws: seq<Worker>, f: Worker -> nat)
    requires forall w :: 0 <= w < |ws| ==> f(ws[w]) == 0
    ensures Sum(ws, f) == 0
  {
    if ws == [] {
    } else {
      SumZero(ws[..|ws| - 1], f);
    }
  }

  /** What serializability needs of the graph: edges go up, conflicts are joined by paths; and of the
      transactions: executed one after the other, they keep to their keys. */
  ghost predicate Ordered(b: Block) {
    && |b.graph| == |b.txs| < INVALID_ID && EdgesGoUp(b.graph)
    && (forall i, j :: 0 <= i < j < |b.txs| && Conflict(b.txs[i].criticals, b.txs[j].criticals) ==>
                       Reaches(b.graph, i, j))
    && KeepToCriticals(b)
  }

  /** The conflict graph is such a graph. */
  lemma BlocksAreOrdered(b: Block)
    requires BlockOk(b)
    ensures Ordered(b)
  {
    ConflictGraphComplete(CriticalsOf(b.txs));
    forall u, i | 0 <= u < |b.graph| && 0 <= i < |b.graph[u]|
      ensures u < b.graph[u][i] < |b.graph|
    {
      assert Edge(b.graph, u, b.graph[u][i]);
    }
  }

  lemma InitShape(b: Block, threads: nat)
    requires Ordered(b)
    ensures Shape(b, Init(b, threads))
  {
    var d := InDegrees(b.graph);
    forall i | 0 <= i < |Ready(d, |d|)|
      ensures Ready(d, |d|)[i] < |d|
    {
      assert multiset(Ready(d, |d|))[Ready(d, |d|)[i]] > 0;
    }
  }

  lemma InitTokens(b: Block, threads: nat)
    ensures TokensOk(Init(b, threads)) && CountsOk(Init(b, threads))
  {
    var s := Init(b, threads);
    forall v: ID ensures Sum(s.workers, Holding(v)) == 0 { SumZero(s.workers, Holding(v)); }
    SumZero(s.workers, LocalCount);
    SumZero(s.workers, IsRunning);
  }

  /** The state parallelExecuteBlock starts from satisfies the invariant. */
  lemma InitSafe(b: Block, threads: nat)
    requires Ordered(b)
    ensures Safe(b, Init(b, threads))
  {
    InitShape(b, threads);
    InitTokens(b, threads);
    InitHistory(b, threads);
  }

  lemma InitHistory(b: Block, threads: nat)
    requires Shape(b, Init(b, threads))
    ensures DegreesOk(b, Init(b, threads)) && HistoryOk(b, Init(b, threads))
  {
    var s := Init(b, threads);
    assert forall v :: 0 <= v < |s.applied| ==> s.applied[v] == 0;
    assert forall w :: 0 <= w < |s.workers| ==> s.workers[w] == Idle;
  }

  /** A set that contains the predecessors of its members contains everything with a path to them. */
  lemma {:induction false} PathInside(g: Graph, p: seq<ID>, done: set<ID>)
    requires IsPath(g, p) && p[|p| - 1] in done
    requires forall u: ID, v: ID :: Edge(g, u, v) && v in done ==> u in done
    ensures p[0] in done
  {
    if |p| <= 1 {
    } else {
      assert Edge(g, p[|p| - 2], p[|p| - 1]);
      PathInside(g, p[..|p| - 1], done);
    }
  }

  /** Everything with a path to a released vertex has been executed. */
  lemma AncestorsExecuted(b: Block, s: State, i: ID, j: ID)
    requires Safe(b, s) && i != j < |b.graph| && Reaches(b.graph, i, j) && s.inDegree[j] == 0
    ensures i in s.receipts
  {
    var p :| IsPath(b.graph, p) && p[0] == i && p[|p| - 1] == j;
    var front := p[..|p| - 1];
    assert Edge(b.graph, p[|p| - 2], p[|p| - 1]);
    PredecessorsExecuted(b, s, p[|p| - 2], j);
    forall u: ID, v: ID | Edge(b.graph, u, v) && v in s.receipts.Keys
      ensures u in s.receipts.Keys
    {
      PredecessorsExecuted(b, s, u, v);
    }
    PathInside(b.graph, front, s.receipts.Keys);
  }

  /** Once a transaction is released, every earlier one it conflicts with has been executed. */
  lemma ConflictsExecuted(b: Block, s: State, i: ID, j: ID)
    requires Ordered(b) && Safe(b, s) && i < j < |b.txs| && Conflict(b.txs[i].criticals, b.txs[j].criticals)
    requires s.inDegree[j] == 0
    ensures i in s.receipts
  {
    AncestorsExecuted(b, s, i, j);
  }

  lemma SameStore(a: Store, c: Store)
    requires forall k :: Lookup(a, k) == Lookup(c, k)
    ensures a == c
  {
    forall k ensures k in a <==> k in c {
      assert Lookup(a, k) == Lookup(c, k);
    }
    forall k | k in a ensures a[k] == c[k] {
      assert Lookup(a, k) == Lookup(c, k);
    }
  }

  /** The store a, seen only at the critical fields, over the store c elsewhere. */
  ghost function Overlay(cs: Criticals, a: Store, c: Store): (r: Store)
    ensures forall k :: Lookup(r, k) == if Touches(cs, k) then Lookup(a, k) else Lookup(c, k)
  {
    map k | k in a.Keys + c.Keys && (if Touches(cs, k) then k in a else k in c) ::
      if Touches(cs, k) then a[k] else c[k]
  }

  lemma {:induction false} ExecFrame(tx: Tx, seen: seq<Option<Value>>, s: Store, k: Key)
    requires KeepsToCriticals(tx, seen, s) && !Touches(tx.criticals, k)
    ensures Lookup(Exec(tx, seen, s).0, k) == Lookup(s, k)
    decreases tx.gas - |seen|
  {
    match tx.Act(seen)
    case Return(_) =>
    case Read(q) => ExecFrame(tx, seen + [Lookup(s, q)], s, k);
    case Write(q, v) => ExecFrame(tx, seen + [None], s[q := v], k);
  }

  /** Transaction t leaves k alone. */
  ghost predicate LeavesAlone(b: Block, t: nat, k: Key)
    requires t < |b.txs|
  {
    Lookup(SerialStore(b.txs, b.s0, t + 1), k) == Lookup(SerialStore(b.txs, b.s0, t), k)
  }

  lemma SerialStep(b: Block, t: nat, k: Key)
    requires KeepToCriticals(b) && t < |b.txs| && !Touches(b.txs[t].criticals, k)
    ensures LeavesAlone(b, t, k)
  {
    ExecFrame(b.txs[t], [], SerialStore(b.txs, b.s0, t), k);
  }

  lemma {:induction false} LeftAlone(b: Block, i: nat, j: nat, k: Key)
    requires i <= j <= |b.txs| && forall t :: i <= t < j ==> LeavesAlone(b, t, k)
    ensures Lookup(SerialStore(b.txs, b.s0, j), k) == Lookup(SerialStore(b.txs, b.s0, i), k)
  {
    if i < j {
      LeftAlone(b, i, j - 1, k);
      assert LeavesAlone(b, j - 1, k);
    }
  }

  lemma SerialFrame(b: Block, i: nat, j: nat, k: Key)
    requires KeepToCriticals(b) && i <= j <= |b.txs|
    requires forall t :: i <= t < j ==> !Touches(b.txs[t].criticals, k)
    ensures Lookup(SerialStore(b.txs, b.s0, j), k) == Lookup(SerialStore(b.txs, b.s0, i), k)
  {
    forall t | i <= t < j ensures LeavesAlone(b, t, k) { SerialStep(b, t, k); }
    LeftAlone(b, i, j, k);
  }

  /** No running transaction touches k, and those executed among the ones that do are exactly those
      before j. */
  ghost predicate Settled(b: Block, s: State, k: Key, j: nat) {
    && j <= |b.txs|
    && (forall w :: 0 <= w < |s.workers| && s.workers[w].Running? && s.workers[w].id < |b.txs| ==>
          !Touches(b.txs[s.workers[w].id].criticals, k))
    && forall i: ID :: i < |b.txs| && Touches(b.txs[i].criticals, k) ==> (i in s.receipts <==> i < j)
  }

  /** A running transaction, continued alone on what it can see, ends as its serial execution does, and keeps to its
      critical fields. */
  ghost predicate OnCourse(b: Block, store: Store, t: ID, seen: seq<Option<Value>>)
    requires t < |b.txs|
  {
    var s := SerialStore(b.txs, b.s0, t);
    && Exec(b.txs[t], seen, Overlay(b.txs[t].criticals, store, s)) == Exec(b.txs[t], [], s)
    && KeepsToCriticals(b.txs[t], seen, Overlay(b.txs[t].criticals, store, s))
  }

  ghost predicate AllOnCourse(b: Block, s: State) {
    forall w :: 0 <= w < |s.workers| && s.workers[w].Running? && s.workers[w].id < |b.txs| ==>
      OnCourse(b, s.store, s.workers[w].id, s.workers[w].seen)
  }

  ghost predicate FieldsSerial(b: Block, s: State) {
    forall k, j {:trigger Settled(b, s, k, j)} ::
      Settled(b, s, k, j) ==> Lookup(s.store, k) == Lookup(SerialStore(b.txs, b.s0, j), k)
  }

  ghost predicate ReceiptsSerial(b: Block, s: State) {
    forall i {:trigger s.receipts[i]} ::
      i in s.receipts && i < |b.txs| ==> s.receipts[i] == SerialReceipt(b.txs, b.s0, i)
  }

  /** What ties a state of the parallel run to the serial execution. */
  ghost predicate Faithful(b: Block, s: State) {
    AllOnCourse(b, s) && FieldsSerial(b, s) && ReceiptsSerial(b, s)
  }

  lemma InitFaithful(b: Block, threads: nat)
    requires Ordered(b)
    ensures Faithful(b, Init(b, threads))
  {
    var s := Init(b, threads);
    forall k, j | Settled(b, s, k, j)
      ensures Lookup(s.store, k) == Lookup(SerialStore(b.txs, b.s0, j), k)
    {
      SerialFrame(b, 0, j, k);
    }
  }

  /** Two transactions in progress share no field. */
  lemma RunningApart(b: Block, s: State, w: nat, x: nat, k: Key)
    requires Ordered(b) && Safe(b, s) && w < |s.workers| && x < |s.workers| && w != x
    requires s.workers[w].Running? && s.workers[x].Running?
    requires Touches(b.txs[s.workers[w].id].criticals, k)
    ensures !Touches(b.txs[s.workers[x].id].criticals, k)
  {
    var t, u := s.workers[w].id, s.workers[x].id;
    InHandOnce(s, w, t);
    InHandOnce(s, x, u);
    assert WorkerOk(s, s.workers[w]) && WorkerOk(s, s.workers[x]);
    assert InHand(s.workers[x], t) == 0;
    if Touches(b.txs[u].criticals, k) {
      if t < u { ConflictsExecuted(b, s, t, u); } else { ConflictsExecuted(b, s, u, t); }
    }
  }

  /** A released transaction that has not been executed shares no field with one in progress. */
  lemma ReleasedApart(b: Block, s: State, t: ID, w: nat, k: Key)
    requires Ordered(b) && Safe(b, s) && t < |b.txs| && s.inDegree[t] == 0 && t !in s.receipts
    requires w < |s.workers| && s.workers[w].Running? && s.workers[w].id != t
    requires Touches(b.txs[t].criticals, k)
    ensures !Touches(b.txs[s.workers[w].id].criticals, k)
  {
    var u := s.workers[w].id;
    InHandOnce(s, w, u);
    assert WorkerOk(s, s.workers[w]);
    if Touches(b.txs[u].criticals, k) {
      if t < u { ConflictsExecuted(b, s, t, u); } else { ConflictsExecuted(b, s, u, t); }
    }
  }

  /** When a released transaction has not been executed and is the only one that may be in progress on
      its fields, those fields hold what they hold at its turn in the serial execution. */
  lemma ReleasedSettled(b: Block, s: State, t: ID, k: Key)
    requires Ordered(b) && Safe(b, s) && t < |b.txs| && s.inDegree[t] == 0 && t !in s.receipts
    requires forall w :: 0 <= w < |s.workers| && s.workers[w].Running? ==> s.workers[w].id != t
    requires Touches(b.txs[t].criticals, k)
    ensures Settled(b, s, k, t)
  {
    forall w | 0 <= w < |s.workers| && s.workers[w].Running?
      ensures !Touches(b.txs[s.workers[w].id].criticals, k)
    {
      ReleasedApart(b, s, t, w, k);
    }
    forall i: ID | i < |b.txs| && Touches(b.txs[i].criticals, k) ensures i in s.receipts <==> i < t {
      EarlierExecuted(b, s, t, k, i);
    }
  }

  lemma EarlierExecuted(b: Block, s: State, t: ID, k: Key, i: ID)
    requires Ordered(b) && Safe(b, s) && t < |b.txs| && s.inDegree[t] == 0 && t !in s.receipts
    requires Touches(b.txs[t].criticals, k) && i < |b.txs| && Touches(b.txs[i].criticals, k)
    ensures i in s.receipts <==> i < t
  {
    if i < t {
      ConflictsExecuted(b, s, i, t);
    } else if i > t && i in s.receipts {
      ConflictsExecuted(b, s, t, i);
    }
  }

  /** Steps that neither touch the store nor start or end a transaction. */
  lemma QuietFaithful(b: Block, s: State, s': State, w: nat)
    requires Faithful(b, s) && w < |s.workers| == |s'.workers| && s'.workers == s.workers[w := s'.workers[w]]
    requires s'.store == s.store && s'.receipts == s.receipts
    requires !s.workers[w].Running? && !s'.workers[w].Running?
    ensures Faithful(b, s')
  {
    forall x | 0 <= x < |s'.workers| && s'.workers[x].Running?
      ensures s.workers[x] == s'.workers[x]
    {
    }
    forall k, j | Settled(b, s', k, j)
      ensures Settled(b, s, k, j)
    {
      assert forall x :: 0 <= x < |s.workers| && s.workers[x].Running? ==> s'.workers[x] == s.workers[x];
    }
  }

  /** A transaction that has just been taken up is on course. */
  lemma StartOnCourse(b: Block, s: State, t: ID)
    requires Ordered(b) && Safe(b, s) && Faithful(b, s) && t < |b.txs| && s.inDegree[t] == 0 && t !in s.receipts
    requires forall w :: 0 <= w < |s.workers| && s.workers[w].Running? ==> s.workers[w].id != t
    ensures OnCourse(b, s.store, t, [])
  {
    var serial := SerialStore(b.txs, b.s0, t);
    forall k
      ensures Lookup(Overlay(b.txs[t].criticals, s.store, serial), k) == Lookup(serial, k)
    {
      if Touches(b.txs[t].criticals, k) { ReleasedSettled(b, s, t, k); }
    }
    SameStore(Overlay(b.txs[t].criticals, s.store, serial), serial);
  }

  lemma StartFaithful(b: Block, s: State, s': State, w: nat, t: ID)
    requires Faithful(b, s) && w < |s.workers| == |s'.workers| && s'.workers == s.workers[w := s'.workers[w]]
    requires s'.store == s.store && s'.receipts == s.receipts
    requires !s.workers[w].Running? && s'.workers[w].Running? && s'.workers[w].id == t && s'.workers[w].seen == []
    requires t < |b.txs| && OnCourse(b, s.store, t, [])
    ensures Faithful(b, s')
  {
    forall k, j | Settled(b, s', k, j)
      ensures Settled(b, s, k, j)
    {
      assert forall x :: 0 <= x < |s.workers| && s.workers[x].Running? ==> s'.workers[x] == s.workers[x];
    }
  }

  /** The running transaction of worker w takes another action; k is what it writes, if it writes. */
  lemma AccessFaithful(b: Block, s: State, s': State, w: nat)
    requires Ordered(b) && Safe(b, s) && Faithful(b, s) && w < |s.workers| == |s'.workers| && s.workers[w].Running?
    requires s'.workers == s.workers[w := s'.workers[w]] && s'.receipts == s.receipts
    requires s'.workers[w].Running? && s'.workers[w].id == s.workers[w].id
    requires OnCourse(b, s'.store, s.workers[w].id, s'.workers[w].seen)
    requires forall k :: !Touches(b.txs[s.workers[w].id].criticals, k) ==> Lookup(s'.store, k) == Lookup(s.store, k)
    ensures Faithful(b, s')
  {
    var t := s.workers[w].id;
    forall x | 0 <= x < |s'.workers| && s'.workers[x].Running? && s'.workers[x].id < |b.txs|
      ensures OnCourse(b, s'.store, s'.workers[x].id, s'.workers[x].seen)
    {
      if x != w {
        var u := s.workers[x].id;
        var serial := SerialStore(b.txs, b.s0, u);
        forall k
          ensures Lookup(Overlay(b.txs[u].criticals, s'.store, serial), k) ==
                  Lookup(Overlay(b.txs[u].criticals, s.store, serial), k)
        {
          if Touches(b.txs[u].criticals, k) { RunningApart(b, s, x, w, k); }
        }
        SameStore(Overlay(b.txs[u].criticals, s'.store, serial), Overlay(b.txs[u].criticals, s.store, serial));
      }
    }
    forall k, j | Settled(b, s', k, j)
      ensures Lookup(s'.store, k) == Lookup(SerialStore(b.txs, b.s0, j), k)
    {
      assert s'.workers[w].id == t && !Touches(b.txs[t].criticals, k);
      assert Settled(b, s, k, j) by {
        forall x | 0 <= x < |s.workers| && s.workers[x].Running? && s.workers[x].id < |b.txs|
          ensures !Touches(b.txs[s.workers[x].id].criticals, k)
        {
          assert s'.workers[x].Running? && s'.workers[x].id == s.workers[x].id;
        }
      }
    }
  }

  lemma ReadOnCourse(b: Block, store: Store, t: ID, seen: seq<Option<Value>>, k: Key)
    requires Ordered(b) && t < |b.txs| && b.txs[t].Act(seen) == Read(k) && OnCourse(b, store, t, seen)
    ensures OnCourse(b, store, t, seen + [Lookup(store, k)])
  {
    var o := Overlay(b.txs[t].criticals, store, SerialStore(b.txs, b.s0, t));
    assert Touches(b.txs[t].criticals, k);
    assert Lookup(o, k) == Lookup(store, k);
  }

  lemma WriteOnCourse(b: Block, store: Store, t: ID, seen: seq<Option<Value>>, k: Key, v: Value)
    requires Ordered(b) && t < |b.txs| && b.txs[t].Act(seen) == Write(k, v) && OnCourse(b, store, t, seen)
    ensures OnCourse(b, store[k := v], t, seen + [None])
  {
    var serial := SerialStore(b.txs, b.s0, t);
    var o := Overlay(b.txs[t].criticals, store, serial);
    var o' := Overlay(b.txs[t].criticals, store[k := v], serial);
    assert Touches(b.txs[t].criticals, k);
    forall q ensures Lookup(o', q) == Lookup(o[k := v], q) {
      assert Lookup(store[k := v], q) == if q == k then Some(v) else Lookup(store, q);
    }
    SameStore(o', o[k := v]);
  }

  /** A transaction that is on course and returns has done what its serial execution does. */
  lemma ReturnOnCourse(b: Block, store: Store, t: ID, seen: seq<Option<Value>>, r: Receipt)
    requires t < |b.txs| && b.txs[t].Act(seen) == Return(r) && OnCourse(b, store, t, seen)
    ensures r == SerialReceipt(b.txs, b.s0, t)
    ensures SerialStore(b.txs, b.s0, t + 1) == Overlay(b.txs[t].criticals, store, SerialStore(b.txs, b.s0, t))
  {
  }

  /** Worker w's transaction t returns. */
  lemma ReturnFaithful(b: Block, s: State, s': State, w: nat, t: ID, r: Receipt)
    requires Ordered(b) && Safe(b, s) && Faithful(b, s) && w < |s.workers| == |s'.workers|
    requires s.workers[w].Running? && s.workers[w].id == t && b.txs[t].Act(s.workers[w].seen) == Return(r)
    requires s'.workers == s.workers[w := s'.workers[w]] && !s'.workers[w].Running?
    requires s'.store == s.store && s'.receipts == s.receipts[t := r]
    requires s'.receipts.Keys == s.receipts.Keys + {t}
    ensures AllOnCourse(b, s') && FieldsSerial(b, s') && ReceiptsSerial(b, s')
  {
    OthersOnCourse(b, s, s', w);
    ReturnFields(b, s, s', w, t);
    ReturnReceipts(b, s, s', w, t, r);
  }

  lemma ReturnReceipts(b: Block, s: State, s': State, w: nat, t: ID, r: Receipt)
    requires AllOnCourse(b, s) && ReceiptsSerial(b, s) && w < |s.workers| && t < |b.txs|
    requires s.workers[w].Running? && s.workers[w].id == t && b.txs[t].Act(s.workers[w].seen) == Return(r)
    requires s'.receipts == s.receipts[t := r]
    ensures ReceiptsSerial(b, s')
  {
    ReturnOnCourse(b, s.store, t, s.workers[w].seen, r);
    ReceiptAddedSerial(b, s, s', t, r);
  }

  lemma ReceiptAddedSerial(b: Block, s: State, s': State, t: ID, r: Receipt)
    requires ReceiptsSerial(b, s) && t < |b.txs| && r == SerialReceipt(b.txs, b.s0, t)
    requires s'.receipts == s.receipts[t := r]
    ensures ReceiptsSerial(b, s')
  {
  }

  lemma ReturnFields(b: Block, s: State, s': State, w: nat, t: ID)
    requires Ordered(b) && Safe(b, s) && Faithful(b, s) && w < |s.workers| == |s'.workers|
    requires s.workers[w].Running? && s.workers[w].id == t && b.txs[t].Act(s.workers[w].seen).Return?
    requires s'.workers == s.workers[w := s'.workers[w]] && !s'.workers[w].Running?
    requires s'.store == s.store && s'.receipts.Keys == s.receipts.Keys + {t}
    ensures FieldsSerial(b, s')
  {
    forall k, j | Settled(b, s', k, j)
      ensures Lookup(s'.store, k) == Lookup(SerialStore(b.txs, b.s0, j), k)
    {
      SettledReturn(b, s, s', w, t, k, j);
    }
  }

  lemma SettledReturn(b: Block, s: State, s': State, w: nat, t: ID, k: Key, j: nat)
    requires Ordered(b) && Safe(b, s) && Faithful(b, s) && w < |s.workers| == |s'.workers|
    requires s.workers[w].Running? && s.workers[w].id == t && b.txs[t].Act(s.workers[w].seen).Return?
    requires s'.workers == s.workers[w := s'.workers[w]] && !s'.workers[w].Running?
    requires s'.store == s.store && s'.receipts.Keys == s.receipts.Keys + {t}
    requires Settled(b, s', k, j)
    ensures Lookup(s'.store, k) == Lookup(SerialStore(b.txs, b.s0, j), k)
  {
    if Touches(b.txs[t].criticals, k) {
      NothingBetween(b, s, s', w, t, k, j);
      ReturnedField(b, s.store, t, s.workers[w].seen, k, j);
    } else {
      UntouchedSettled(b, s, s', w, t, k, j);
    }
  }

  lemma OthersOnCourse(b: Block, s: State, s': State, w: nat)
    requires Faithful(b, s) && w < |s.workers| == |s'.workers| && s'.workers == s.workers[w := s'.workers[w]]
    requires s'.store == s.store && !s'.workers[w].Running?
    ensures AllOnCourse(b, s')
  {
    assert forall x :: 0 <= x < |s'.workers| && s'.workers[x].Running? ==> s'.workers[x] == s.workers[x];
  }

  lemma UntouchedSettled(b: Block, s: State, s': State, w: nat, t: ID, k: Key, j: nat)
    requires w < |s.workers| && s.workers[w].Running? && s.workers[w].id == t < |b.txs|
    requires |s'.workers| == |s.workers| && s'.workers == s.workers[w := s'.workers[w]]
    requires s'.receipts.Keys == s.receipts.Keys + {t}
    requires Settled(b, s', k, j) && !Touches(b.txs[t].criticals, k)
    ensures Settled(b, s, k, j)
  {
    forall x | 0 <= x < |s.workers| && s.workers[x].Running? && s.workers[x].id < |b.txs|
      ensures !Touches(b.txs[s.workers[x].id].criticals, k)
    {
      assert x != w ==> s'.workers[x] == s.workers[x];
    }
    forall i: ID | i < |b.txs| && Touches(b.txs[i].criticals, k)
      ensures i in s.receipts <==> i < j
    {
      assert i in s'.receipts <==> i in s.receipts;
    }
  }

  /** What t leaves in a field stays there in the serial execution until the next that touches it. */
  lemma ReturnedField(b: Block, store: Store, t: ID, seen: seq<Option<Value>>, k: Key, j: nat)
    requires Ordered(b) && t < j <= |b.txs| && b.txs[t].Act(seen).Return? && OnCourse(b, store, t, seen)
    requires Touches(b.txs[t].criticals, k) && forall i: nat :: t < i < j ==> !Touches(b.txs[i].criticals, k)
    ensures Lookup(store, k) == Lookup(SerialStore(b.txs, b.s0, j), k)
  {
    ReturnOnCourse(b, store, t, seen, b.txs[t].Act(seen).receipt);
    SerialFrame(b, t + 1, j, k);
  }

  /** When t has returned, a settled field is past t, and nothing between has touched it. */
  lemma NothingBetween(b: Block, s: State, s': State, w: nat, t: ID, k: Key, j: nat)
    requires Ordered(b) && Safe(b, s) && w < |s.workers| && s.workers[w].Running? && s.workers[w].id == t
    requires s'.receipts.Keys == s.receipts.Keys + {t} && Settled(b, s', k, j) && Touches(b.txs[t].criticals, k)
    ensures t < j && forall i: nat :: t < i < j ==> !Touches(b.txs[i].criticals, k)
  {
    assert t in s'.receipts;
    forall i: nat | t < i < j ensures !Touches(b.txs[i].criticals, k) {
      if Touches(b.txs[i].criticals, k) {
        assert i in s'.receipts;
        NotOvertaken(b, s, w, i, k);
      }
    }
  }

  /** No later transaction that shares a field with one in progress has been executed. */
  lemma NotOvertaken(b: Block, s: State, w: nat, i: ID, k: Key)
    requires Ordered(b) && Safe(b, s) && w < |s.workers| && s.workers[w].Running?
    requires s.workers[w].id < i < |b.txs| && i in s.receipts
    requires Touches(b.txs[s.workers[w].id].criticals, k)
    ensures !Touches(b.txs[i].criticals, k)
  {
    assert WorkerOk(s, s.workers[w]);
    if Touches(b.txs[i].criticals, k) { ConflictsExecuted(b, s, s.workers[w].id, i); }
  }

  lemma RunningFaithful(b: Block, s: State, w: nat, s': State)
    requires Ordered(b) && Safe(b, s) && Faithful(b, s) && w < |s.workers| && s' == Step(b, s, w)
    requires s.workers[w].Running?
    ensures Faithful(b, s')
  {
    var t, seen := s.workers[w].id, s.workers[w].seen;
    match b.txs[t].Act(seen) {
      case Read(k) => ReadFaithful(b, s, w, s', k);
      case Write(k, v) => WriteFaithful(b, s, w, s', k, v);
      case Return(r) =>
        ReceiptKeys(s.receipts, t, r);
        ReturnFaithful(b, s, s', w, t, r);
    }
  }

  lemma ReceiptKeys(m: map<ID, Receipt>, id: ID, r: Receipt)
    ensures m[id := r].Keys == m.Keys + {id}
  {
  }

  lemma ReadFaithful(b: Block, s: State, w: nat, s': State, k: Key)
    requires Ordered(b) && Safe(b, s) && Faithful(b, s) && w < |s.workers| && s.workers[w].Running?
    requires b.txs[s.workers[w].id].Act(s.workers[w].seen) == Read(k)
    requires s' == s.(workers := s.workers[w := s.workers[w].(seen := s.workers[w].seen + [Lookup(s.store, k)])])
    ensures Faithful(b, s')
  {
    ReadOnCourse(b, s.store, s.workers[w].id, s.workers[w].seen, k);
    AccessFaithful(b, s, s', w);
  }

  lemma WriteFaithful(b: Block, s: State, w: nat, s': State, k: Key, v: Value)
    requires Ordered(b) && Safe(b, s) && Faithful(b, s) && w < |s.workers| && s.workers[w].Running?
    requires b.txs[s.workers[w].id].Act(s.workers[w].seen) == Write(k, v)
    requires s' == s.(store := s.store[k := v],
                      workers := s.workers[w := s.workers[w].(seen := s.workers[w].seen + [None])])
    ensures Faithful(b, s')
  {
    WriteOnCourse(b, s.store, s.workers[w].id, s.workers[w].seen, k, v);
    assert Touches(b.txs[s.workers[w].id].criticals, k);
    AccessFaithful(b, s, s', w);
  }

  /** Worker w, which was not executing, takes up transaction t, which it or the queue holds. */
  lemma TakenUpFaithful(b: Block, s: State, w: nat, s': State, t: ID)
    requires Ordered(b) && Safe(b, s) && Faithful(b, s) && w < |s.workers|
    requires !s.workers[w].Running? && Unstarted(s, t)
    requires t in s.queue || InHand(s.workers[w], t) > 0
    requires |s'.workers| == |s.workers| && s'.workers == s.workers[w := s'.workers[w]]
    requires s'.workers[w].Running? && s'.workers[w].id == t && s'.workers[w].seen == []
    requires s'.store == s.store && s'.receipts == s.receipts
    ensures Faithful(b, s')
  {
    if InHand(s.workers[w], t) > 0 {
      InHandOnce(s, w, t);
    } else {
      assert Tokens(s, t) == 1 && multiset(s.queue)[t] >= 1;
    }
    forall x | 0 <= x < |s.workers| && s.workers[x].Running?
      ensures s.workers[x].id != t
    {
      if s.workers[x].id == t { InHandOnce(s, x, t); }
    }
    StartOnCourse(b, s, t);
    StartFaithful(b, s, s', w, t);
  }

  lemma OtherEffect(b: Block, s: State, w: nat, s': State)
    requires Shape(b, s) && w < |s.workers| && s' == Step(b, s, w) && !s.workers[w].Running?
    ensures |s'.workers| == |s.workers| && s'.workers == s.workers[w := s'.workers[w]]
    ensures s'.store == s.store && s'.receipts == s.receipts
    ensures s'.workers[w].Running? ==>
      && s'.workers[w].seen == []
      && ((s.workers[w].Popping? && s.queue != [] && s.queue[0] == s'.workers[w].id)
          || (s.workers[w].Consuming? && s.workers[w].next == Some(s'.workers[w].id)))
  {
  }

  lemma OtherFaithful(b: Block, s: State, w: nat, s': State)
    requires Ordered(b) && Safe(b, s) && Faithful(b, s) && w < |s.workers| && s' == Step(b, s, w)
    requires !s.workers[w].Running?
    ensures Faithful(b, s')
  {
    OtherEffect(b, s, w, s');
    if s'.workers[w].Running? {
      TakenUp(b, s, w, s');
    } else {
      QuietFaithful(b, s, s', w);
    }
  }

  lemma TakenUp(b: Block, s: State, w: nat, s': State)
    requires Ordered(b) && Safe(b, s) && Faithful(b, s) && w < |s.workers| == |s'.workers|
    requires s'.workers == s.workers[w := s'.workers[w]] && s'.store == s.store && s'.receipts == s.receipts
    requires !s.workers[w].Running? && s'.workers[w].Running? && s'.workers[w].seen == []
    requires (s.workers[w].Popping? && s.queue != [] && s.queue[0] == s'.workers[w].id)
          || (s.workers[w].Consuming? && s.workers[w].next == Some(s'.workers[w].id))
    ensures Faithful(b, s')
  {
    assert WorkerOk(s, s.workers[w]);
    TakenUpFaithful(b, s, w, s', s'.workers[w].id);
  }

  lemma StepFaithful(b: Block, s: State, w: nat, s': State)
    requires Ordered(b) && Safe(b, s) && Faithful(b, s) && w < |s.workers| && s' == Step(b, s, w)
    ensures Faithful(b, s')
  {
    if s.workers[w].Running? { RunningFaithful(b, s, w, s'); } else { OtherFaithful(b, s, w, s'); }
  }

  /** Every reachable state satisfies both invariants. */
  lemma {:induction false} RunKeeps(b: Block, s: State, schedule: seq<nat>)
    requires Ordered(b) && Safe(b, s) && Faithful(b, s)
    requires forall i :: 0 <= i < |schedule| ==> schedule[i] < |s.workers|
    ensures Safe(b, Run(b, s, schedule)) && Faithful(b, Run(b, s, schedule))
    decreases |schedule|
  {
    if schedule == [] {
    } else {
      var s' := Step(b, s, schedule[0]);
      StepShape(b, s, schedule[0]);
      StepSafe(b, s, schedule[0], s');
      StepFaithful(b, s, schedule[0], s');
      RunKeeps(b, s', schedule[1..]);
    }
  }

  /** The state reached from the start of a block by a schedule. */
  ghost function Reached(b: Block, threads: nat, schedule: seq<nat>): State
    requires BlockOk(b) && forall i :: 0 <= i < |schedule| ==> schedule[i] < threads
  {
    BlocksAreOrdered(b);
    InitShape(b, threads);
    Run(b, Init(b, threads), schedule)
  }

  lemma ReachedKeeps(b: Block, threads: nat, schedule: seq<nat>)
    requires BlockOk(b) && forall i :: 0 <= i < |schedule| ==> schedule[i] < threads
    ensures Safe(b, Reached(b, threads, schedule)) && Faithful(b, Reached(b, threads, schedule))
    ensures |Reached(b, threads, schedule).workers| == threads
  {
    BlocksAreOrdered(b);
    InitSafe(b, threads);
    InitFaithful(b, threads);
    RunKeeps(b, Init(b, threads), schedule);
  }
}
