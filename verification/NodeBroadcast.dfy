/** Broadcasting a message among the nodes of libdevcore/TreeTopology.cpp: every node that receives it sends it on to
    the nodes that its own selectNodes returns. All nodes have the same list and the same connections. */
module NodeBroadcast {
  import opened Prelude
  import opened Topology
  import opened Broadcast
  import opened TreeTopology

  /** Messages under way, by receiver, and the nodes that have received one, in the order in which they did. */
  datatype NodeNet = NodeNet(inFlight: seq<NodeId>, received: seq<NodeId>)

  /** Message number k arrives, and its receiver sends it on. */
  function DeliverTo(nodes: seq<NodeId>, w: nat, peers: set<NodeId>, start: nat, s: NodeNet, k: nat): NodeNet
    requires w > 0 && k < |s.inFlight|
  {
    var x := s.inFlight[k];
    NodeNet(s.inFlight[..k] + s.inFlight[k + 1..] + Sends(nodes, w, peers, start, x, false), s.received + [x])
  }

  /** Messages arrive in any order; picks says which is next. */
  function RunNodes(nodes: seq<NodeId>, w: nat, peers: set<NodeId>, start: nat, s: NodeNet, picks: seq<nat>): NodeNet
    requires w > 0
    decreases |picks|
  {
    if picks == [] || s.inFlight == [] then s
    else RunNodes(nodes, w, peers, start, DeliverTo(nodes, w, peers, start, s, picks[0] % |s.inFlight|), picks[1..])
  }

  /** The nodes at the positions of a network of positions. */
  function NodesOf(nodes: seq<NodeId>, start: nat, s: Net): NodeNet
    requires Within(s.inFlight, -1, |nodes|) && Within(s.received, -1, |nodes|)
  {
    NodeNet(Ids(nodes, start, s.inFlight), Ids(nodes, start, s.received))
  }

  lemma DeliverIsDelivery(nodes: seq<NodeId>, w: nat, peers: set<NodeId>, start: nat, s: Net, k: nat)
    requires w > 0 && Distinct(nodes) && k < |s.inFlight|
    requires Within(s.inFlight, -1, |nodes|) && Within(s.received, -1, |nodes|)
    ensures var s' := Deliver(TreeOf(nodes, w, peers, start), s, k);
      && Within(s'.inFlight, -1, |nodes|) && Within(s'.received, -1, |nodes|)
      && DeliverTo(nodes, w, peers, start, NodesOf(nodes, start, s), k) == NodesOf(nodes, start, s')
  {
    var t, x, n := TreeOf(nodes, w, peers, start), s.inFlight[k], NodesOf(nodes, start, s);
    var s', n' := Deliver(t, s, k), DeliverTo(nodes, w, peers, start, n, k);
    SendsAreIds(nodes, w, peers, start, (x + start) % |nodes|);
    PositionIsUnique(|nodes|, start, x);
    assert n'.inFlight == Ids(nodes, start, s'.inFlight);
    assert n'.received == Ids(nodes, start, s'.received);
  }

  lemma {:induction false} RunIsRun(nodes: seq<NodeId>, w: nat, peers: set<NodeId>, start: nat, s: Net, picks: seq<nat>)
    requires w > 0 && Distinct(nodes) && Within(s.inFlight, -1, |nodes|) && Within(s.received, -1, |nodes|)
    ensures var s' := RunNet(TreeOf(nodes, w, peers, start), s, picks);
      && Within(s'.received, -1, |nodes|)
      && RunNodes(nodes, w, peers, start, NodesOf(nodes, start, s), picks) == NodesOf(nodes, start, s')
    decreases |picks|
  {
    if picks != [] && s.inFlight != [] {
      var k := picks[0] % |s.inFlight|;
      DeliverIsDelivery(nodes, w, peers, start, s, k);
      RunIsRun(nodes, w, peers, start, Deliver(TreeOf(nodes, w, peers, start), s, k), picks[1..]);
    }
  }

  /** A node occurs as often as its position. */
  lemma {:induction false} CountIds(nodes: seq<NodeId>, start: nat, ps: seq<nat>, j: nat)
    requires Distinct(nodes) && Within(ps, -1, |nodes|) && j < |nodes|
    ensures Count(Ids(nodes, start, ps), nodes[j]) == Count(ps, Position(|nodes|, start, j))
  {
    if ps == [] {
    } else {
      CountIds(nodes, start, ps[1..], j);
      assert Ids(nodes, start, ps)[1..] == Ids(nodes, start, ps[1..]);
      PositionIsUnique(|nodes|, start, ps[0]);
      var i := (ps[0] + start) % |nodes|;
      assert nodes[i] == nodes[j] <==> i == j;
    }
  }

  /** Without repetitions there are at most n numbers below n. */
  lemma {:induction false} FewPositions(s: seq<nat>, n: nat)
    requires (forall i :: 0 <= i < |s| ==> s[i] < n) && forall q: nat :: q < n ==> Count(s, q) <= 1
    ensures |s| <= n
  {
    assert s != [] ==> s[0] < n;
    if n == 0 {
    } else {
      var x := n - 1;
      CountIsMembership(s, x);
      if x in s {
        var k :| 0 <= k < |s| && s[k] == x;
        var rest := s[..k] + s[k + 1..];
        forall q: nat ensures Count(s, q) == Count(rest, q) + One(q == x) { CountWithout(s, k, q); }
        CountIsMembership(rest, x);
        FewPositions(rest, x);
      } else {
        FewPositions(s, x);
      }
    }
  }

  lemma CountWithout(s: seq<nat>, k: nat, q: nat)
    requires k < |s|
    ensures Count(s, q) == Count(s[..k] + s[k + 1..], q) + One(q == s[k])
  {
    assert s == s[..k] + ([s[k]] + s[k + 1..]);
    CountAppend(s[..k], [s[k]] + s[k + 1..], q);
    CountAppend([s[k]], s[k + 1..], q);
    CountAppend(s[..k], s[k + 1..], q);
    assert Count([s[k]], q) == One(q == s[k]);
  }

  lemma {:induction false} FloodWithin(t: Tree, xs: seq<nat>, m: int)
    requires t.w > 0 && -1 <= m && Within(xs, m, t.n)
    ensures Within(Flood(t, xs, m), m, t.n)
    decreases if m < t.n then t.n - m else 0, |xs|
  {
    if xs == [] {
    } else {
      FloodWithin(t, Select(t, xs[0]), xs[0]);
      FloodWithin(t, xs[1..], m);
    }
  }

  /** How often node j is to receive the message. */
  ghost predicate Reached(nodes: seq<NodeId>, s: NodeNet, j: nat, times: nat)
    requires j < |nodes|
  {
    && Count(s.received, nodes[j]) <= times
    && (s.inFlight == [] ==> Count(s.received, nodes[j]) == times)
  }

  /** What the network does, by what is reached from its positions. */
  lemma NetReaches(nodes: seq<NodeId>, w: nat, peers: set<NodeId>, start: nat, xs: seq<nat>, picks: seq<nat>,
                   j: nat, times: nat)
    requires w > 0 && Distinct(nodes) && Within(xs, -1, |nodes|) && j < |nodes|
    requires Count(Flood(TreeOf(nodes, w, peers, start), xs, -1), Position(|nodes|, start, j)) == times
    ensures Reached(nodes, RunNodes(nodes, w, peers, start, NodeNet(Ids(nodes, start, xs), []), picks), j, times)
  {
    var t, q, s0 := TreeOf(nodes, w, peers, start), Position(|nodes|, start, j), Net(xs, []);
    var s := RunNet(t, s0, picks);
    RunKeeps(t, s0, picks, q);
    assert Total(t, s0) == Flood(t, xs, -1);
    CountAppend(s.received, Flood(t, s.inFlight, -1), q);
    assert NodesOf(nodes, start, s0) == NodeNet(Ids(nodes, start, xs), []);
    RunIsRun(nodes, w, peers, start, s0, picks);
    CountIds(nodes, start, s.received, j);
  }

  /** As many arrivals as there are nodes are enough. */
  lemma NetEnds(nodes: seq<NodeId>, w: nat, peers: set<NodeId>, start: nat, xs: seq<nat>, picks: seq<nat>)
    requires w > 0 && Distinct(nodes) && Within(xs, -1, |nodes|) && |picks| >= |nodes|
    requires forall q: nat :: q < |nodes| ==> Count(Flood(TreeOf(nodes, w, peers, start), xs, -1), q) <= 1
    ensures RunNodes(nodes, w, peers, start, NodeNet(Ids(nodes, start, xs), []), picks).inFlight == []
  {
    var t, s0 := TreeOf(nodes, w, peers, start), Net(xs, []);
    FloodWithin(t, xs, -1);
    FewPositions(Flood(t, xs, -1), |nodes|);
    RunKeeps(t, s0, picks, 0);
    var s := RunNet(t, s0, picks);
    assert |Flood(t, s.inFlight, -1)| == 0;
    assert NodesOf(nodes, start, s0) == NodeNet(Ids(nodes, start, xs), []);
    RunIsRun(nodes, w, peers, start, s0, picks);
  }

  /** The messages that a node sends to begin with. */
  function Started(nodes: seq<NodeId>, w: nat, peers: set<NodeId>, start: nat, x: NodeId): NodeNet
    requires w > 0
  {
    NodeNet(Sends(nodes, w, peers, start, x, true), [])
  }

  /** Broadcast coverage: a message that starts at the node with list index start reaches every other connected node
      exactly once, in whatever order the messages arrive, and no other; after as many arrivals as there are nodes, none
      is under way. */
  lemma EveryNodeReached(nodes: seq<NodeId>, w: nat, peers: set<NodeId>, start: nat, picks: seq<nat>)
    requires w > 0 && Distinct(nodes) && nodes != []
    ensures var s := RunNodes(nodes, w, peers, start, Started(nodes, w, peers, start, nodes[start % |nodes|]), picks);
      && (forall j: nat :: j < |nodes| ==> Reached(nodes, s, j, One(nodes[j] in peers && j != start % |nodes|)))
      && (|picks| >= |nodes| ==> s.inFlight == [])
  {
    var n, t, root := |nodes|, TreeOf(nodes, w, peers, start), start % |nodes|;
    PositionIsUnique(n, start, 0);
    SendsAreIds(nodes, w, peers, start, root);
    var xs := Select(t, 0);
    FloodBound(t, xs, -1, 0);
    forall q: nat | q < n ensures Count(Flood(t, xs, -1), q) == One(q in t.live && q != 0) {
      SelectReaches(t, 0, q);
      if q > 0 { RootIsAbove(w, q); }
    }
    forall j: nat | j < n
      ensures Reached(nodes, RunNodes(nodes, w, peers, start, NodeNet(Ids(nodes, start, xs), []), picks), j,
                      One(nodes[j] in peers && j != root))
    {
      var q := Position(n, start, j);
      LiveAt(nodes, peers, start, n, q);
      PositionIsUnique(n, start, q);
      NetReaches(nodes, w, peers, start, xs, picks, j, One(nodes[j] in peers && j != root));
    }
    if |picks| >= n { NetEnds(nodes, w, peers, start, xs, picks); }
  }

  /** What an observer sends is what ObserverStart says on positions. */
  lemma ObserverSends(nodes: seq<NodeId>, w: nat, peers: set<NodeId>, start: nat)
    requires w > 0
    ensures ObserverIds(nodes, w, peers, start) ==
            Ids(nodes, start, ObserverStart(TreeOf(nodes, w, peers, start), start))
  {
    SelectIdsAreIds(nodes, w, peers, start, start, 0);
    if start < |nodes| {
      LiveAt(nodes, peers, start, |nodes|, 0);
      DivIsUnique(start, |nodes|, 0, start);
    }
  }

  /** An observer's message reaches, once each, all connected nodes if the start node is connected, and otherwise those
      below the position that has the list index of the start node. */
  lemma ObserverReachesNodes(nodes: seq<NodeId>, w: nat, peers: set<NodeId>, start: nat, x: NodeId, picks: seq<nat>)
    requires w > 0 && Distinct(nodes) && x !in nodes
    ensures var s := RunNodes(nodes, w, peers, start, Started(nodes, w, peers, start, x), picks);
      && (forall j: nat :: j < |nodes| ==> Reached(nodes, s, j, One(nodes[j] in peers &&
            ((start < |nodes| && nodes[start] in peers) || Below(w, start, Position(|nodes|, start, j))))))
      && (|picks| >= |nodes| ==> s.inFlight == [])
  {
    var n, t := |nodes|, TreeOf(nodes, w, peers, start);
    var xs := ObserverStart(t, start);
    ObserverSends(nodes, w, peers, start);
    if start < n {
      LiveAt(nodes, peers, start, n, 0);
      DivIsUnique(start, n, 0, start);
    }
    forall q: nat | q < n ensures Count(Flood(t, xs, -1), q) <= 1 { ObserverReaches(t, start, q); }
    forall j: nat | j < n
      ensures Reached(nodes, RunNodes(nodes, w, peers, start, NodeNet(Ids(nodes, start, xs), []), picks), j,
                      One(nodes[j] in peers &&
                          ((start < n && nodes[start] in peers) || Below(w, start, Position(n, start, j)))))
    {
      var q := Position(n, start, j);
      LiveAt(nodes, peers, start, n, q);
      ObserverReaches(t, start, q);
      NetReaches(nodes, w, peers, start, xs, picks, j,
                 One(nodes[j] in peers && ((start < n && nodes[start] in peers) || Below(w, start, q))));
    }
    if |picks| >= n { NetEnds(nodes, w, peers, start, xs, picks); }
  }

  /** The message has reached all connected nodes. */
  ghost predicate Covers(nodes: seq<NodeId>, w: nat, start: nat, x: NodeId, peers: set<NodeId>, picks: seq<nat>)
    requires w > 0
  {
    forall j: nat :: j < |nodes| ==>
      Count(RunNodes(nodes, w, peers, start, Started(nodes, w, peers, start, x), picks).received, nodes[j]) ==
      One(nodes[j] in peers)
  }

  /** An observer's message reaches all connected nodes, whichever they are, only for start index 0: the index is used
      as a position although the tree is rotated by it. */
  lemma ObserverCoversOnlyAtZero(nodes: seq<NodeId>, w: nat, start: nat, x: NodeId, picks: seq<nat>)
    requires w > 0 && Distinct(nodes) && nodes != [] && x !in nodes && |picks| >= |nodes|
    ensures start == 0 <==> forall peers :: Covers(nodes, w, start, x, peers, picks)
  {
    var n := |nodes|;
    forall peers ensures start == 0 ==> Covers(nodes, w, start, x, peers, picks) {
      ObserverReachesNodes(nodes, w, peers, start, x, picks);
      forall j: nat | j < n && start == 0 ensures Position(n, 0, j) == j && (j > 0 ==> Below(w, 0, j)) {
        PositionOfLater(n, 0, j);
        if j > 0 { RootIsAbove(w, j); }
      }
    }
    if start > 0 { var peers := ObserverMisses(nodes, w, start, x, picks); }
  }

  /** For other start indices, this is a connected node that it misses. */
  lemma ObserverMisses(nodes: seq<NodeId>, w: nat, start: nat, x: NodeId, picks: seq<nat>) returns (peers: set<NodeId>)
    requires w > 0 && Distinct(nodes) && nodes != [] && x !in nodes && |picks| >= |nodes| && start > 0
    ensures !Covers(nodes, w, start, x, peers, picks)
  {
    var n := |nodes|;
    var q := if start < n then start else 0;
    var j := (q + start) % n;
    peers := {nodes[j]};
    PositionIsUnique(n, start, q);
    ObserverReachesNodes(nodes, w, peers, start, x, picks);
    if Below(w, start, q) { BelowIsLarger(w, start, q); }
    if start < n && nodes[start] in peers { StartIsNotAhead(n, start, j); }
    assert Count(RunNodes(nodes, w, peers, start, Started(nodes, w, peers, start, x), picks).received, nodes[j]) == 0;
  }

  lemma StartIsNotAhead(n: nat, start: nat, j: nat)
    requires 0 < start < n && j == (start + start) % n
    ensures j != start
  {
    if j == start {
      PositionIsUnique(n, start, start);
      PositionOfLater(n, start, start);
    }
  }

  /** The receivers that are nodes of the list. */
  function Listed(nodes: seq<NodeId>, xs: seq<NodeId>): seq<NodeId> {
    if xs == [] then []
    else (if xs[0] in nodes then [xs[0]] else []) + Listed(nodes, xs[1..])
  }

  lemma {:induction false} ListedAppend(nodes: seq<NodeId>, a: seq<NodeId>, b: seq<NodeId>)
    ensures Listed(nodes, a + b) == Listed(nodes, a) + Listed(nodes, b)
  {
    if a == [] {
      assert a + b == b;
    } else {
      ListedAppend(nodes, a[1..], b);
      assert (a + b)[1..] == a[1..] + b;
      var first := if a[0] in nodes then [a[0]] else [];
      assert first + (Listed(nodes, a[1..]) + Listed(nodes, b)) == first + Listed(nodes, a[1..]) + Listed(nodes, b);
    }
  }

  lemma {:induction false} AllListed(nodes: seq<NodeId>, xs: seq<NodeId>)
    ensures (forall i :: 0 <= i < |xs| ==> xs[i] in nodes) ==> Listed(nodes, xs) == xs
    ensures (forall i :: 0 <= i < |xs| ==> xs[i] !in nodes) ==> Listed(nodes, xs) == []
  {
    if xs == [] {
    } else {
      AllListed(nodes, xs[1..]);
      assert forall i :: 0 <= i < |xs| - 1 ==> xs[1..][i] == xs[i + 1];
    }
  }

  lemma {:induction false} ListedCount(nodes: seq<NodeId>, xs: seq<NodeId>, x: NodeId)
    requires x in nodes
    ensures Count(Listed(nodes, xs), x) == Count(xs, x)
  {
    if xs == [] {
    } else {
      ListedCount(nodes, xs[1..], x);
      CountAppend(if xs[0] in nodes then [xs[0]] else [], Listed(nodes, xs[1..]), x);
    }
  }

  function ListedNet(nodes: seq<NodeId>, s: NodeNet): NodeNet {
    NodeNet(Listed(nodes, s.inFlight), Listed(nodes, s.received))
  }

  /** Who is outside the list and did not start the message sends it to nobody. */
  lemma OutsiderIsSilent(nodes: seq<NodeId>, w: nat, peers: set<NodeId>, start: int, x: NodeId)
    requires w > 0 && x !in nodes
    ensures Sends(nodes, w, peers, start, x, false) == []
  {
  }

  lemma SendsToListed(nodes: seq<NodeId>, w: nat, peers: set<NodeId>, start: nat, x: NodeId)
    requires w > 0 && Distinct(nodes) && x in nodes
    ensures Listed(nodes, Sends(nodes, w, peers, start, x, false)) == Sends(nodes, w, peers, start, x, false)
  {
    var k :| 0 <= k < |nodes| && nodes[k] == x;
    SendsAreIds(nodes, w, peers, start, k);
    AllListed(nodes, Sends(nodes, w, peers, start, x, false));
  }

  /** An arrival at a node outside the list changes nothing for those in it; an arrival at a node of the list is one of
      the network of the list. */
  lemma DeliverListed(nodes: seq<NodeId>, w: nat, peers: set<NodeId>, start: nat, s: NodeNet, k: nat)
    requires w > 0 && Distinct(nodes) && k < |s.inFlight|
    ensures var t, t', m := ListedNet(nodes, s), ListedNet(nodes, DeliverTo(nodes, w, peers, start, s, k)),
                            |Listed(nodes, s.inFlight[..k])|;
      if s.inFlight[k] in nodes then m < |t.inFlight| && t' == DeliverTo(nodes, w, peers, start, t, m) else t' == t
  {
    var x := s.inFlight[k];
    var c := Sends(nodes, w, peers, start, x, false);
    var a, b := s.inFlight[..k], s.inFlight[k + 1..];
    assert s.inFlight == a + ([x] + b);
    ListedAround(nodes, a, x, b, c);
    Middle(Listed(nodes, a), x, Listed(nodes, b));
    ListedAppend(nodes, s.received, [x]);
    AllListed(nodes, [x]);
    if x in nodes {
      SendsToListed(nodes, w, peers, start, x);
    } else {
      OutsiderIsSilent(nodes, w, peers, start, x);
    }
  }

  /** Dropping one of the receivers and adding others behind. */
  lemma ListedAround(nodes: seq<NodeId>, a: seq<NodeId>, x: NodeId, b: seq<NodeId>, c: seq<NodeId>)
    ensures Listed(nodes, a + ([x] + b)) ==
            Listed(nodes, a) + ((if x in nodes then [x] else []) + Listed(nodes, b))
    ensures Listed(nodes, a + b + c) == Listed(nodes, a) + Listed(nodes, b) + Listed(nodes, c)
  {
    ListedAppend(nodes, a + b, c);
    ListedAppend(nodes, a, b);
    ListedAppend(nodes, a, [x] + b);
    FirstListed(nodes, x, b);
  }

  lemma FirstListed(nodes: seq<NodeId>, x: NodeId, more: seq<NodeId>)
    ensures Listed(nodes, [x] + more) == (if x in nodes then [x] else []) + Listed(nodes, more)
  {
    assert ([x] + more)[1..] == more;
  }

  lemma Middle(a: seq<NodeId>, x: NodeId, b: seq<NodeId>)
    ensures var all := a + ([x] + b);
      all[..|a|] == a && all[|a|] == x && all[|a| + 1..] == b
  {
  }

  /** A run with receivers outside the list is a run without them. */
  lemma {:induction false} RunListed(nodes: seq<NodeId>, w: nat, peers: set<NodeId>, start: nat, s: NodeNet,
                                     picks: seq<nat>)
    returns (others: seq<nat>)
    requires w > 0 && Distinct(nodes)
    ensures ListedNet(nodes, RunNodes(nodes, w, peers, start, s, picks)) ==
            RunNodes(nodes, w, peers, start, ListedNet(nodes, s), others)
    decreases |picks|
  {
    others := [];
    if picks != [] && s.inFlight != [] {
      var k := picks[0] % |s.inFlight|;
      DeliverListed(nodes, w, peers, start, s, k);
      others := RunListed(nodes, w, peers, start, DeliverTo(nodes, w, peers, start, s, k), picks[1..]);
      if s.inFlight[k] in nodes {
        var m, n := |Listed(nodes, s.inFlight[..k])|, |Listed(nodes, s.inFlight)|;
        DivIsUnique(m, n, 0, m);
        assert ([m] + others)[1..] == others;
        others := [m] + others;
      }
    }
  }

  /** Broadcast coverage with observers among the receivers: messages to nodes outside the list, sent beside those of
      the start node, change nothing for the nodes of the list. */
  lemma ObserversDoNotMatter(nodes: seq<NodeId>, w: nat, peers: set<NodeId>, start: nat, outside: seq<NodeId>,
                             picks: seq<nat>)
    requires w > 0 && Distinct(nodes) && nodes != [] && forall i :: 0 <= i < |outside| ==> outside[i] !in nodes
    ensures var s0 := NodeNet(Sends(nodes, w, peers, start, nodes[start % |nodes|], true) + outside, []);
      var s := RunNodes(nodes, w, peers, start, s0, picks);
      forall j: nat :: j < |nodes| ==> Reached(nodes, s, j, One(nodes[j] in peers && j != start % |nodes|))
  {
    var root := nodes[start % |nodes|];
    var s0 := NodeNet(Sends(nodes, w, peers, start, root, true) + outside, []);
    var s := RunNodes(nodes, w, peers, start, s0, picks);
    var others := RunListed(nodes, w, peers, start, s0, picks);
    ListedAppend(nodes, Sends(nodes, w, peers, start, root, true), outside);
    SendsToListed(nodes, w, peers, start, root);
    AllListed(nodes, outside);
    assert ListedNet(nodes, s0) == Started(nodes, w, peers, start, root);
    EveryNodeReached(nodes, w, peers, start, others);
    forall j: nat | j < |nodes|
      ensures Reached(nodes, s, j, One(nodes[j] in peers && j != start % |nodes|))
    {
      ListedCount(nodes, s.received, nodes[j]);
    }
  }
}
