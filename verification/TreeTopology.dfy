/** The class TreeTopology of libdevcore/TreeTopology.cpp, TreeTopology.h. */
module TreeTopology {
  import opened Prelude
  import opened Topology
  import opened Broadcast

  type NodeId(==, !new)

  /** The node at a position of the tree that is rotated by start. */
  function At(nodes: seq<NodeId>, start: int, p: nat): NodeId
    requires nodes != []
  {
    nodes[(p + start) % |nodes|]
  }

  function Ids(nodes: seq<NodeId>, start: nat, ps: seq<nat>): (r: seq<NodeId>)
    requires Within(ps, -1, |nodes|)
    ensures |r| == |ps| && forall i :: 0 <= i < |ps| ==> r[i] == At(nodes, start, ps[i])
  {
    seq(|ps|, i requires 0 <= i < |ps| => At(nodes, start, ps[i]))
  }

  /** The tree of a list of nodes, as the peers that are connected see it. */
  function TreeOf(nodes: seq<NodeId>, w: nat, peers: set<NodeId>, start: nat): Tree {
    Tree(|nodes|, w, Live(nodes, peers, start, |nodes|))
  }

  /** The positions below k whose nodes are connected. */
  function Live(nodes: seq<NodeId>, peers: set<NodeId>, start: nat, k: nat): (live: set<nat>)
    requires k <= |nodes|
  {
    if k == 0 then {}
    else Live(nodes, peers, start, k - 1) + if At(nodes, start, k - 1) in peers then {k - 1} else {}
  }

  lemma {:induction false} LiveAt(nodes: seq<NodeId>, peers: set<NodeId>, start: nat, k: nat, p: nat)
    requires k <= |nodes|
    ensures p in Live(nodes, peers, start, k) <==> p < k && At(nodes, start, p) in peers
  {
    if k == 0 {
    } else {
      LiveAt(nodes, peers, start, k - 1, p);
    }
  }

  /** The first place of x, or -1. */
  function IndexOf(s: seq<NodeId>, x: NodeId): (k: int)
    ensures -1 <= k < |s| && (k >= 0 ==> s[k] == x)
    ensures k == -1 <==> x !in s
  {
    if s == [] then -1
    else if s[0] == x then 0
    else
      var k := IndexOf(s[1..], x);
      if k < 0 then -1 else k + 1
  }

  /** The position of list index k in the tree that is rotated by start. */
  function Position(n: nat, start: nat, k: nat): (p: nat)
    requires k < n
    ensures p < n && (p + start) % n == k
  {
    PositionIsRotated(n, start, k);
    (k + n - start % n) % n
  }

  lemma PositionIsRotated(n: nat, start: nat, k: nat)
    requires k < n
    ensures var p := (k + n - start % n) % n; p < n && (p + start) % n == k
  {
    var r, p := start % n, (k + n - start % n) % n;
    var c := if k >= r then 1 else 0;
    DivIsUnique(k + n - r, n, c, k + n - r - c * n);
    assert start == (start / n) * n + r;
    var d := start / n;
    assert p + start == (d + 1 - c) * n + k;
    DivIsUnique(p + start, n, d + 1 - c, k);
  }

  lemma SameRemainder(x: nat, y: nat, n: nat)
    requires n > 0 && x % n == y % n && -(n as int) < x - y < n
    ensures x == y
  {
    var a, b := x / n, y / n;
    assert x == a * n + x % n && y == b * n + y % n;
    MulGap(a, b, n);
    MulGap(b, a, n);
  }

  /** Every position belongs to one list index. */
  lemma PositionIsUnique(n: nat, start: nat, p: nat)
    requires p < n
    ensures Position(n, start, (p + start) % n) == p
  {
    var q := Position(n, start, (p + start) % n);
    SameRemainder(p + start, q + start, n);
  }

  lemma PositionOfLater(n: nat, start: nat, k: nat)
    requires k < n
    ensures start <= k ==> Position(n, start, k) == k - start
  {
    if start <= k {
      DivIsUnique(k, n, 0, k);
      PositionIsUnique(n, start, k - start);
    }
  }

  /** TreeTopology on one node: its view of the consensus nodes, and its own place among them. */
  class TreeTopology {
    const treeWidth: nat
    const nodeId: NodeId
    var nodes: seq<NodeId>
    var nodeNum: int
    var consIndex: int
    var startIndex: int
    var endIndex: int

    ghost predicate Valid()
      reads this
    {
      treeWidth > 0 && (Fresh() || Updated())
    }

    /** Before any nodes are known. */
    ghost predicate Fresh()
      reads this
    {
      nodes == [] && nodeNum == 0 && consIndex == 0 && endIndex == 0
    }

    ghost predicate Updated()
      reads this
    {
      nodeNum == |nodes| && endIndex == |nodes| - 1 && consIndex == IndexOf(nodes, nodeId)
    }

    constructor (id: NodeId, width: nat)
      requires width > 0
      ensures nodeId == id && treeWidth == width && Valid() && Fresh()
    {
      treeWidth, nodeId := width, id;
      nodes, nodeNum, consIndex, startIndex, endIndex := [], 0, 0, 0, 0;
    }

    method UpdateConsensusNodeInfo(consensusNodes: seq<NodeId>)
      requires Valid()
      modifies this
      ensures Valid() && nodes == consensusNodes && (consensusNodes != [] ==> Updated())
    {
      if nodes == consensusNodes { return; }
      nodes := consensusNodes;
      consIndex := GetNodeIndexByNodeId(nodes, nodeId);
      UpdateStartAndEndIndex();
    }

    method UpdateStartAndEndIndex()
      modifies `startIndex, `endIndex, `nodeNum
      ensures startIndex == 0 && endIndex == |nodes| - 1 && nodeNum == |nodes|
    {
      startIndex := 0;
      endIndex := |nodes| - 1;
      nodeNum := |nodes|;
    }

    static method GetNodeIndexByNodeId(findSet: seq<NodeId>, id: NodeId) returns (nodeIndex: int)
      ensures nodeIndex == IndexOf(findSet, id)
    {
      nodeIndex := -1;
      for i := 0 to |findSet|
        invariant nodeIndex == -1
        invariant IndexOf(findSet, id) == if IndexOf(findSet[i..], id) < 0 then -1 else i + IndexOf(findSet[i..], id)
      {
        assert findSet[i..][1..] == findSet[i + 1..];
        if id == findSet[i] { nodeIndex := i; break; }
      }
    }

    method GetNodeIDByIndex(index: int) returns (r: Option<NodeId>)
      requires index >= 0
      ensures r == if index < |nodes| then Some(nodes[index]) else None
    {
      if index >= |nodes| { return None; }
      return Some(nodes[index]);
    }

    method GetSelectedNodeIndex(selectedIndex: nat, offset: int) returns (r: int)
      requires nodeNum > 0
      ensures r == TruncMod(selectedIndex + offset, nodeNum)
    {
      r := TruncMod(selectedIndex + offset, nodeNum);
    }

    /** recursiveSelectChildNodes: appends the nearest live descendants of a position. */
    method RecursiveSelectChildNodes(list: seq<NodeId>, parentIndex: nat, peers: set<NodeId>, start: int)
      returns (r: seq<NodeId>)
      requires Valid() && parentIndex + start >= -1
      ensures r == list + SelectIds(nodes, treeWidth, peers, start, parentIndex, 0)
      decreases |nodes| - parentIndex, 0
    {
      r := list;
      ghost var all := list + SelectIds(nodes, treeWidth, peers, start, parentIndex, 0);
      for i := 0 to treeWidth
        invariant r + SelectIds(nodes, treeWidth, peers, start, parentIndex, i) == all
      {
        ghost var rest := SelectIds(nodes, treeWidth, peers, start, parentIndex, i + 1);
        var expectedIndex := parentIndex * treeWidth + i + 1;
        NextIds(nodes, treeWidth, peers, start, parentIndex, i, expectedIndex, r);
        if expectedIndex > endIndex { return; }
        r := SelectChild(r, expectedIndex, peers, start);
        if expectedIndex == endIndex {
          assert r + [] == r;
          return;
        }
      }
      assert r + [] == r;
    }

    /** The body of that loop: the child itself, or what is selected below it. */
    method SelectChild(list: seq<NodeId>, expectedIndex: nat, peers: set<NodeId>, start: int)
      returns (r: seq<NodeId>)
      requires Valid() && expectedIndex < |nodes| && expectedIndex + start >= 0
      ensures r == list + SeenIds(nodes, treeWidth, peers, start, expectedIndex)
      decreases |nodes| - expectedIndex, 1
    {
      var selectedIndex := GetSelectedNodeIndex(expectedIndex, start);
      var selected := GetNodeIDByIndex(selectedIndex);
      if selected.Some? && selected.value in peers {
        r := list + [selected.value];
      } else if expectedIndex < endIndex {
        r := RecursiveSelectChildNodes(list, expectedIndex, peers, start);
      } else {
        r := list;
      }
    }

    /** selectParentNodes: appends the nearest live position above, or all of them; None when the list is read at a
        negative index. */
    method SelectParentNodes(list: seq<NodeId>, peers: set<NodeId>, nodeIndex: nat, start: int, selectAll: bool)
      returns (r: Option<seq<NodeId>>)
      requires Valid() && (nodes != [] || nodeIndex == 0)
      ensures r == Behind(list, AboveIds(nodes, treeWidth, peers, start, nodeIndex, selectAll))
    {
      var found := list;
      ghost var all := Behind(list, AboveIds(nodes, treeWidth, peers, start, nodeIndex, selectAll));
      var parentIndex := TruncDiv(nodeIndex - 1, treeWidth);
      ParentIndexIs(treeWidth, nodeIndex);
      assert list + [] == list;
      if parentIndex == nodeIndex || parentIndex < 0 { return Some(found); }
      while true
        invariant 0 <= parentIndex && nodes != []
        invariant all == Behind(found, FromIds(nodes, treeWidth, peers, start, parentIndex, selectAll))
        decreases parentIndex
      {
        var selectedIndex := GetSelectedNodeIndex(parentIndex, start);
        if selectedIndex < 0 { return None; }
        var selected := GetNodeIDByIndex(selectedIndex);
        ghost var rest := AboveIds(nodes, treeWidth, peers, start, parentIndex, selectAll);
        if selected.Some? && selected.value in peers {
          BehindOne(found, selected.value, rest);
          found := found + [selected.value];
          if !selectAll { return Some(found); }
        }
        if parentIndex <= 0 {
          assert found + [] == found;
          return Some(found);
        }
        ParentIndexIs(treeWidth, parentIndex);
        parentIndex := TruncDiv(parentIndex - 1, treeWidth);
      }
    }

    method GetNodeIndex(start: int) returns (nodeIndex: nat)
      requires Valid() && consIndex >= 0 && (nodes == [] ==> start <= 0)
      ensures nodeIndex == NodeIndex(|nodes|, start, consIndex)
    {
      if consIndex >= start {
        nodeIndex := consIndex - start;
      } else {
        nodeIndex := (consIndex + nodeNum - start % nodeNum) % nodeNum;
      }
    }

    /** selectNodes: whom this node sends a message that started at the node with list index start. An observer needs a
        list index; to others the tree makes sense for a negative start, too. */
    method SelectNodes(peers: set<NodeId>, start: int, isTheStartNode: bool) returns (r: seq<NodeId>)
      requires Valid() && (Fresh() ==> start <= 0) && (consIndex < 0 && isTheStartNode ==> start >= 0)
      ensures r == if nodes == [] then [] else Sends(nodes, treeWidth, peers, start, nodeId, isTheStartNode)
    {
      r := [];
      if consIndex < 0 {
        if !isTheStartNode { return; }
        var selected := GetNodeIDByIndex(start);
        if selected.Some? && selected.value in peers {
          r := r + [selected.value];
        } else {
          r := RecursiveSelectChildNodes(r, start, peers, start);
        }
      } else {
        var nodeIndex := GetNodeIndex(start);
        r := RecursiveSelectChildNodes(r, nodeIndex, peers, start);
      }
    }

    /** selectNodesByNodeID: an unknown start has list index -1. */
    method SelectNodesByNodeID(peers: set<NodeId>, id: NodeId, isTheStartNode: bool) returns (r: seq<NodeId>)
      requires Valid() && (consIndex < 0 && isTheStartNode ==> id in nodes)
      ensures r == if nodes == [] then []
        else Sends(nodes, treeWidth, peers, IndexOf(nodes, id), nodeId, isTheStartNode)
    {
      var start := GetNodeIndexByNodeId(nodes, id);
      r := SelectNodes(peers, start, isTheStartNode);
    }

    /** selectParent: from whom this node asks for a message that started at list index start. */
    method SelectParent(peers: set<NodeId>, start: int, selectAll: bool) returns (r: Option<seq<NodeId>>)
      requires Valid() && (Fresh() ==> start == 0)
      ensures r == if nodes == [] then Some([]) else Asks(nodes, treeWidth, peers, start, nodeId, selectAll)
    {
      if consIndex < 0 { return Some([]); }
      var nodeIndex := GetNodeIndex(start);
      r := SelectParentNodes([], peers, nodeIndex, start, selectAll);
      NothingBefore(AboveIds(nodes, treeWidth, peers, start, nodeIndex, selectAll));
    }

    /** selectParentByNodeID: an unknown start has list index -1. */
    method SelectParentByNodeID(peers: set<NodeId>, id: NodeId) returns (r: Option<seq<NodeId>>)
      requires Valid() && !Fresh()
      ensures r == if nodes == [] then Some([]) else Asks(nodes, treeWidth, peers, IndexOf(nodes, id), nodeId, false)
    {
      var start := GetNodeIndexByNodeId(nodes, id);
      r := SelectParent(peers, start, false);
    }
  }

  /** getNodeIndex: for the list indices of the start this is the position. */
  function NodeIndex(n: nat, start: int, k: nat): nat
    requires start <= k || n > 0
  {
    if k >= start then k - start else (k + n - start % n) % n
  }

  lemma NodeIndexIsPosition(n: nat, start: nat, k: nat)
    requires k < n
    ensures NodeIndex(n, start, k) == Position(n, start, k)
  {
    PositionOfLater(n, start, k);
  }

  /** Whom a node sends a message that started at the node with list index start: selectNodes on that node. */
  function Sends(nodes: seq<NodeId>, w: nat, peers: set<NodeId>, start: int, x: NodeId, isTheStartNode: bool)
    : seq<NodeId>
    requires w > 0 && (x !in nodes && isTheStartNode ==> start >= 0)
  {
    if x in nodes then SelectIds(nodes, w, peers, start, NodeIndex(|nodes|, start, IndexOf(nodes, x)), 0)
    else if isTheStartNode then ObserverIds(nodes, w, peers, start)
    else []
  }

  /** C++ integer division, which truncates. */
  function TruncDiv(a: int, b: nat): int
    requires b > 0
  {
    if a >= 0 then a / b else -(-a / b)
  }

  /** The C++ remainder, which has the sign of a. */
  function TruncMod(a: int, n: nat): (r: int)
    requires n > 0
    ensures r < n && (a >= 0 ==> r == a % n)
  {
    if a >= 0 then a % n else -(-a % n)
  }

  lemma ParentIndexIs(w: nat, q: nat)
    requires w > 0
    ensures q > 0 ==> TruncDiv(q - 1, w) == Parent(w, q)
    ensures q == 0 ==> TruncDiv(q - 1, w) == if w == 1 then -1 else 0
  {
    if q == 0 && w > 1 { DivIsUnique(1, w, 0, 1); }
  }

  function First(s: seq<NodeId>): seq<NodeId> {
    if s == [] then [] else [s[0]]
  }

  /** The walk upwards from a position: the nearest connected node above, or all of them, nearest first. None when the
      walk comes to a position that has no list index before it ends. */
  function AboveIds(nodes: seq<NodeId>, w: nat, peers: set<NodeId>, start: int, q: nat, selectAll: bool)
    : Option<seq<NodeId>>
    requires w > 0 && (nodes != [] || q == 0)
    decreases q, 0
  {
    if q == 0 then Some([]) else FromIds(nodes, w, peers, start, Parent(w, q), selectAll)
  }

  /** The same, from a position on. */
  function FromIds(nodes: seq<NodeId>, w: nat, peers: set<NodeId>, start: int, q: nat, selectAll: bool)
    : Option<seq<NodeId>>
    requires w > 0 && nodes != []
    decreases q, 1
  {
    var i := TruncMod(q + start, |nodes|);
    if i < 0 then None
    else if nodes[i] in peers then
      if selectAll then Behind([nodes[i]], AboveIds(nodes, w, peers, start, q, selectAll)) else Some([nodes[i]])
    else AboveIds(nodes, w, peers, start, q, selectAll)
  }

  function Behind(list: seq<NodeId>, more: Option<seq<NodeId>>): Option<seq<NodeId>> {
    match more
    case None => None
    case Some(ids) => Some(list + ids)
  }

  lemma BehindOne(list: seq<NodeId>, x: NodeId, more: Option<seq<NodeId>>)
    ensures Behind(list, Behind([x], more)) == Behind(list + [x], more)
  {
    if more.Some? { assert list + ([x] + more.value) == list + [x] + more.value; }
  }

  lemma NothingBefore(more: Option<seq<NodeId>>)
    ensures Behind([], more) == more
  {
    if more.Some? { assert [] + more.value == more.value; }
  }

  /** From whom a node asks for a message that started at the node with list index start: selectParent on that node. */
  function Asks(nodes: seq<NodeId>, w: nat, peers: set<NodeId>, start: int, x: NodeId, selectAll: bool)
    : Option<seq<NodeId>>
    requires w > 0 && nodes != []
  {
    if x in nodes then AboveIds(nodes, w, peers, start, NodeIndex(|nodes|, start, IndexOf(nodes, x)), selectAll)
    else Some([])
  }

  /** Where an observer sends a message: to the start node, or, if that is not connected, to what is selected
      below the position that has the start node's list index. */
  function ObserverIds(nodes: seq<NodeId>, w: nat, peers: set<NodeId>, start: nat): seq<NodeId>
    requires w > 0
  {
    if start < |nodes| && nodes[start] in peers then [nodes[start]]
    else SelectIds(nodes, w, peers, start, start, 0)
  }

  /** What the children i, i + 1, ... of position p contribute to the selection of p. */
  function SelectIds(nodes: seq<NodeId>, w: nat, peers: set<NodeId>, start: int, p: nat, i: nat): seq<NodeId>
    requires w > 0 && i <= w
    decreases |nodes| - p, w - i, 0
  {
    if i == w || Child(w, p, i) >= |nodes| then []
    else SeenIds(nodes, w, peers, start, Child(w, p, i)) + SelectIds(nodes, w, peers, start, p, i + 1)
  }

  /** The child itself, or what it would select. */
  function SeenIds(nodes: seq<NodeId>, w: nat, peers: set<NodeId>, start: int, c: nat): seq<NodeId>
    requires w > 0 && c < |nodes|
    decreases |nodes| - c, w + 1, 1
  {
    if At(nodes, start, c) in peers then [At(nodes, start, c)] else SelectIds(nodes, w, peers, start, c, 0)
  }

  lemma NextIds(nodes: seq<NodeId>, w: nat, peers: set<NodeId>, start: int, p: nat, i: nat, c: nat, r: seq<NodeId>)
    requires i < w && c == p * w + i + 1
    ensures p < c
    ensures c >= |nodes| ==> r + SelectIds(nodes, w, peers, start, p, i) == r
    ensures c < |nodes| ==> (r + SelectIds(nodes, w, peers, start, p, i) ==
                             r + SeenIds(nodes, w, peers, start, c) + SelectIds(nodes, w, peers, start, p, i + 1))
    ensures c == |nodes| - 1 ==> SelectIds(nodes, w, peers, start, p, i + 1) == []
  {
    assert c == Child(w, p, i);
    if i + 1 < w { assert Child(w, p, i + 1) == c + 1; }
  }

  lemma IdsAppend(nodes: seq<NodeId>, start: nat, a: seq<nat>, b: seq<nat>)
    requires Within(a, -1, |nodes|) && Within(b, -1, |nodes|)
    ensures Ids(nodes, start, a + b) == Ids(nodes, start, a) + Ids(nodes, start, b)
  {
  }

  /** In terms of positions this is Select. */
  lemma {:induction false} SelectIdsAreIds(nodes: seq<NodeId>, w: nat, peers: set<NodeId>, start: nat, p: nat, i: nat)
    requires w > 0 && i <= w
    ensures SelectIds(nodes, w, peers, start, p, i) == Ids(nodes, start, Kids(TreeOf(nodes, w, peers, start), p, i))
    decreases |nodes| - p, w - i, 0
  {
    var t := TreeOf(nodes, w, peers, start);
    if i < w && Child(w, p, i) < |nodes| {
      var c := Child(w, p, i);
      SeenIdsAreIds(nodes, w, peers, start, c);
      SelectIdsAreIds(nodes, w, peers, start, p, i + 1);
      IdsAppend(nodes, start, Seen(t, c), Kids(t, p, i + 1));
    }
  }

  lemma {:induction false} SeenIdsAreIds(nodes: seq<NodeId>, w: nat, peers: set<NodeId>, start: nat, c: nat)
    requires w > 0 && c < |nodes|
    ensures SeenIds(nodes, w, peers, start, c) == Ids(nodes, start, Seen(TreeOf(nodes, w, peers, start), c))
    decreases |nodes| - c, w + 1, 1
  {
    LiveAt(nodes, peers, start, |nodes|, c);
    if At(nodes, start, c) !in peers { SelectIdsAreIds(nodes, w, peers, start, c, 0); }
  }

  lemma {:induction false} CountIsMembership(s: seq<nat>, x: nat)
    ensures Count(s, x) > 0 <==> x in s
  {
    if s == [] {
    } else {
      CountIsMembership(s[1..], x);
    }
  }

  lemma IdIsSelected(nodes: seq<NodeId>, start: nat, ps: seq<nat>, k: nat)
    requires Distinct(nodes) && Within(ps, -1, |nodes|) && k < |nodes|
    ensures nodes[k] in Ids(nodes, start, ps) <==> Position(|nodes|, start, k) in ps
  {
    var p, ids := Position(|nodes|, start, k), Ids(nodes, start, ps);
    if p in ps {
      var i :| 0 <= i < |ps| && ps[i] == p;
      assert ids[i] == nodes[k];
    }
    if nodes[k] in ids {
      var i :| 0 <= i < |ids| && ids[i] == nodes[k];
      assert (ps[i] + start) % |nodes| == k;
      PositionIsUnique(|nodes|, start, ps[i]);
    }
  }

  /** In terms of positions this is Above. */
  lemma {:induction false} AboveIdsAreIds(nodes: seq<NodeId>, w: nat, peers: set<NodeId>, start: nat, q: nat)
    requires w > 0 && q < |nodes|
    ensures var above := Above(TreeOf(nodes, w, peers, start), q);
      && Within(above, -1, q)
      && AboveIds(nodes, w, peers, start, q, true) == Some(Ids(nodes, start, above))
    decreases q
  {
    if q == 0 {
    } else {
      var p, t := Parent(w, q), TreeOf(nodes, w, peers, start);
      LiveAt(nodes, peers, start, |nodes|, p);
      AboveIdsAreIds(nodes, w, peers, start, p);
      var first: seq<nat> := if p in t.live then [p] else [];
      assert Above(t, q) == first + Above(t, p);
      IdsAppend(nodes, start, first, Above(t, p));
      AboveByOne(nodes, w, peers, start, q, p, Ids(nodes, start, first));
    }
  }

  lemma AboveByOne(nodes: seq<NodeId>, w: nat, peers: set<NodeId>, start: nat, q: nat, p: nat, first: seq<NodeId>)
    requires w > 0 && nodes != [] && q > 0 && p == Parent(w, q)
    requires first == if At(nodes, start, p) in peers then [At(nodes, start, p)] else []
    ensures AboveIds(nodes, w, peers, start, q, true) == Behind(first, AboveIds(nodes, w, peers, start, p, true))
  {
    NothingBefore(AboveIds(nodes, w, peers, start, p, true));
  }

  /** The single parent is the first of all. */
  lemma {:induction false} FirstOfAll(nodes: seq<NodeId>, w: nat, peers: set<NodeId>, start: nat, q: nat)
    requires w > 0 && (nodes != [] || q == 0)
    ensures var all := AboveIds(nodes, w, peers, start, q, true);
      all.Some? && AboveIds(nodes, w, peers, start, q, false) == Some(First(all.value))
    decreases q
  {
    if q == 0 {
    } else {
      FirstOfAll(nodes, w, peers, start, Parent(w, q));
    }
  }

  /** Parents and children agree: a connected node v is among the nodes that a connected node u selects if and
      only if u is the one node that v selects as its parent. */
  lemma ParentChildDuality(nodes: seq<NodeId>, w: nat, peers: set<NodeId>, start: nat, u: nat, v: nat)
    requires w > 0 && Distinct(nodes) && u < |nodes| && v < |nodes| && nodes[u] in peers && nodes[v] in peers
    ensures nodes[v] in Sends(nodes, w, peers, start, nodes[u], false) <==>
            Asks(nodes, w, peers, start, nodes[v], false) == Some([nodes[u]])
  {
    var t, p, q := TreeOf(nodes, w, peers, start), Position(|nodes|, start, u), Position(|nodes|, start, v);
    LiveAt(nodes, peers, start, |nodes|, p);
    LiveAt(nodes, peers, start, |nodes|, q);
    SendsAreIds(nodes, w, peers, start, u);
    IdIsSelected(nodes, start, Select(t, p), v);
    SelectSees(t, p, q);
    CountIsMembership(Select(t, p), q);
    SeesIsNearest(t, p, q);
    AsksAbove(nodes, w, peers, start, v);
    var above := Above(t, q);
    if above != [] {
      PositionIsUnique(|nodes|, start, above[0]);
      assert At(nodes, start, above[0]) == nodes[u] <==> above[0] == p;
    }
  }

  lemma AsksAbove(nodes: seq<NodeId>, w: nat, peers: set<NodeId>, start: nat, v: nat)
    requires w > 0 && Distinct(nodes) && v < |nodes|
    ensures var above := Above(TreeOf(nodes, w, peers, start), Position(|nodes|, start, v));
      && Within(above, -1, |nodes|)
      && Asks(nodes, w, peers, start, nodes[v], false) == Some(First(Ids(nodes, start, above)))
  {
    IndexOfAt(nodes, v);
    NodeIndexIsPosition(|nodes|, start, v);
    AboveIdsAreIds(nodes, w, peers, start, Position(|nodes|, start, v));
    FirstOfAll(nodes, w, peers, start, Position(|nodes|, start, v));
  }

  /** What a node of the list sends is what its position selects. */
  lemma SendsAreIds(nodes: seq<NodeId>, w: nat, peers: set<NodeId>, start: nat, k: nat)
    requires w > 0 && Distinct(nodes) && k < |nodes|
    ensures forall first ::
      Sends(nodes, w, peers, start, nodes[k], first) ==
      Ids(nodes, start, Select(TreeOf(nodes, w, peers, start), Position(|nodes|, start, k)))
  {
    IndexOfAt(nodes, k);
    NodeIndexIsPosition(|nodes|, start, k);
    SelectIdsAreIds(nodes, w, peers, start, Position(|nodes|, start, k), 0);
  }

  lemma {:induction false} SameTree(nodes: seq<NodeId>, w: nat, peers: set<NodeId>, a: int, b: int, p: nat, i: nat)
    requires w > 0 && i <= w && forall q: nat :: 0 < q < |nodes| ==> At(nodes, a, q) == At(nodes, b, q)
    ensures SelectIds(nodes, w, peers, a, p, i) == SelectIds(nodes, w, peers, b, p, i)
    decreases |nodes| - p, w - i
  {
    if i < w && Child(w, p, i) < |nodes| {
      SameTree(nodes, w, peers, a, b, Child(w, p, i), 0);
      SameTree(nodes, w, peers, a, b, p, i + 1);
    }
  }

  /** A message from an unknown start goes along the tree that the last node is the root of, but that node itself sends
      it to nobody. */
  lemma UnknownStart(nodes: seq<NodeId>, w: nat, peers: set<NodeId>, k: nat)
    requires w > 0 && Distinct(nodes) && k < |nodes|
    ensures var last := |nodes| - 1;
      Sends(nodes, w, peers, -1, nodes[k], false) ==
      if k == last then [] else Sends(nodes, w, peers, last, nodes[k], false)
  {
    var n := |nodes|;
    IndexOfAt(nodes, k);
    if k < n - 1 {
      NodeIndexIsPosition(n, n - 1, k);
      PositionIsUnique(n, n - 1, k + 1);
      DivIsUnique(k + 1 + (n - 1), n, 1, k);
      forall q: nat | 0 < q < n ensures At(nodes, -1, q) == At(nodes, n - 1, q) {
        DivIsUnique(q - 1, n, 0, q - 1);
        DivIsUnique(q + (n - 1), n, 1, q - 1);
      }
      SameTree(nodes, w, peers, -1, n - 1, k + 1, 0);
    }
  }

  lemma {:induction false} IndexOfAt(nodes: seq<NodeId>, k: nat)
    requires Distinct(nodes) && k < |nodes|
    ensures IndexOf(nodes, nodes[k]) == k
  {
    if k == 0 {
    } else {
      assert nodes[0] != nodes[k];
      assert forall i :: 0 <= i < |nodes| - 1 ==> nodes[1..][i] == nodes[i + 1];
      IndexOfAt(nodes[1..], k - 1);
    }
  }

  /** How many of the positions first, first + 1, ..., at most so many, are below n. */
  function Fitting(n: nat, first: nat, most: nat): nat {
    if first + most <= n then most else if first <= n then n - first else 0
  }

  /** When all nodes are connected, the children are selected themselves, in order. */
  lemma {:induction false} ChildrenInOrder(nodes: seq<NodeId>, w: nat, peers: set<NodeId>, start: nat, p: nat, i: nat,
                                           first: nat)
    requires i <= w && w > 0 && first == p * w + i + 1 && forall x :: x in nodes ==> x in peers
    ensures var r := SelectIds(nodes, w, peers, start, p, i);
      && |r| == Fitting(|nodes|, first, w - i)
      && forall k :: 0 <= k < |r| ==> r[k] == nodes[(start + (first + k)) % |nodes|]
    decreases w - i
  {
    if i < w && first < |nodes| {
      assert Child(w, p, i) == first;
      var next := SelectIds(nodes, w, peers, start, p, i + 1);
      ChildrenInOrder(nodes, w, peers, start, p, i + 1, first + 1);
      var x := nodes[(first + start) % |nodes|];
      assert SelectIds(nodes, w, peers, start, p, i) == [x] + next;
      forall k | 0 < k < 1 + |next| ensures ([x] + next)[k] == nodes[(start + (first + k)) % |nodes|] {
        assert ([x] + next)[k] == next[k - 1] == nodes[(start + ((first + 1) + (k - 1))) % |nodes|];
      }
    }
  }

  /** The tree in list indices, when all nodes are connected: the node p places behind the start sends to those
      p * w + 1 to p * w + w places behind it, as far as there are so many. */
  lemma EveryoneConnected(nodes: seq<NodeId>, w: nat, peers: set<NodeId>, start: nat, p: nat)
    requires w > 0 && Distinct(nodes) && p < |nodes| && forall x :: x in nodes ==> x in peers
    ensures var r := Sends(nodes, w, peers, start, nodes[(start + p) % |nodes|], false);
      && |r| == Fitting(|nodes|, p * w + 1, w)
      && forall k :: 0 <= k < |r| ==> r[k] == nodes[(start + (p * w + 1 + k)) % |nodes|]
  {
    var k := (p + start) % |nodes|;
    IndexOfAt(nodes, k);
    NodeIndexIsPosition(|nodes|, start, k);
    PositionIsUnique(|nodes|, start, p);
    ChildrenInOrder(nodes, w, peers, start, p, 0, p * w + 1);
  }

  /** The nearest connected node above position q, when position p stands for list index p - 1. */
  ghost predicate IsNearest(nodes: seq<NodeId>, w: nat, peers: set<NodeId>, q: nat, p: nat)
    requires w > 0
  {
    && ConnectedAbove(nodes, w, peers, q, p)
    && forall r: nat :: ConnectedAbove(nodes, w, peers, q, r) ==> r <= p
  }

  ghost predicate ConnectedAbove(nodes: seq<NodeId>, w: nat, peers: set<NodeId>, q: nat, p: nat)
    requires w > 0
  {
    0 < p <= |nodes| && Below(w, p, q) && nodes[p - 1] in peers
  }

  lemma AboveOrParent(nodes: seq<NodeId>, w: nat, peers: set<NodeId>, q: nat, p: nat)
    requires w > 0 && q > 0
    ensures ConnectedAbove(nodes, w, peers, q, p) <==>
            ConnectedAbove(nodes, w, peers, Parent(w, q), p)
            || (p == Parent(w, q) && 0 < p <= |nodes| && nodes[p - 1] in peers)
    ensures Below(w, p, q) ==> p <= Parent(w, q)
  {
    if Below(w, p, q) && p != Parent(w, q) { BelowIsLarger(w, p, Parent(w, q)); }
  }

  /** The walk upwards for a start with list index -1, in a list of at least two nodes. */
  lemma {:induction false} WalkFromUnknown(nodes: seq<NodeId>, w: nat, peers: set<NodeId>, q: nat)
    requires w > 0 && |nodes| > 1 && q <= |nodes|
    ensures q > 0 ==> AboveIds(nodes, w, peers, -1, q, true) == None
    ensures var r := AboveIds(nodes, w, peers, -1, q, false);
      if exists p: nat :: ConnectedAbove(nodes, w, peers, q, p)
      then exists p: nat :: IsNearest(nodes, w, peers, q, p) && r == Some([nodes[p - 1]])
      else q > 0 ==> r == None
    decreases q
  {
    if q == 0 {
    } else {
      var p := Parent(w, q);
      forall r: nat ensures ConnectedAbove(nodes, w, peers, q, r) <==>
        ConnectedAbove(nodes, w, peers, p, r) || (r == p && 0 < p && nodes[p - 1] in peers)
      {
        AboveOrParent(nodes, w, peers, q, r);
      }
      WalkFromUnknown(nodes, w, peers, p);
      if p > 0 {
        assert TruncMod(p - 1, |nodes|) == p - 1 by { DivIsUnique(p - 1, |nodes|, 0, p - 1); }
        if nodes[p - 1] in peers {
          forall r: nat | ConnectedAbove(nodes, w, peers, q, r) ensures r <= p { AboveOrParent(nodes, w, peers, q, r); }
          assert IsNearest(nodes, w, peers, q, p);
        } else if r: nat :| ConnectedAbove(nodes, w, peers, p, r) {
          var s: nat :|
            IsNearest(nodes, w, peers, p, s) && AboveIds(nodes, w, peers, -1, p, false) == Some([nodes[s - 1]]);
          assert IsNearest(nodes, w, peers, q, s);
        }
      } else {
        assert TruncMod(-1, |nodes|) == -1 by { DivIsUnique(1, |nodes|, 0, 1); }
      }
    }
  }

  /** Asking for a message from an unknown start: the answer is the nearest connected node above in the tree that the
      last node is the root of, but for that root. Without such a node the list is read at index -1, and when all are
      asked for always. A list of one node is the exception: the remainder is 0 there, and the node would ask itself. */
  lemma UnknownParent(nodes: seq<NodeId>, w: nat, peers: set<NodeId>, k: nat, q: nat)
    requires w > 0 && Distinct(nodes) && k < |nodes| && q == k + 1
    ensures |nodes| > 1 ==> Asks(nodes, w, peers, -1, nodes[k], true) == None
    ensures |nodes| > 1 ==>
      (Asks(nodes, w, peers, -1, nodes[k], false) == None <==> !exists p: nat :: ConnectedAbove(nodes, w, peers, q, p))
    ensures |nodes| > 1 ==> forall p: nat :: IsNearest(nodes, w, peers, q, p) ==>
      Asks(nodes, w, peers, -1, nodes[k], false) == Some([nodes[p - 1]])
    ensures |nodes| == 1 ==>
      && Asks(nodes, w, peers, -1, nodes[k], true) == Asks(nodes, w, peers, -1, nodes[k], false)
      && Asks(nodes, w, peers, -1, nodes[k], false) == Some(if nodes[0] in peers then [nodes[0]] else [])
  {
    IndexOfAt(nodes, k);
    if |nodes| > 1 {
      WalkFromUnknown(nodes, w, peers, q);
    } else {
      assert Parent(w, 1) == 0 by { DivIsUnique(0, w, 0, 0); }
      assert TruncMod(-1, 1) == 0 && [nodes[0]] + [] == [nodes[0]];
    }
  }

  /** A list of two nodes, of which the first is not connected: the second, asking for an unknown start, reads the list
      at index -1. */
  lemma UnknownParentExample(a: NodeId, b: NodeId)
    requires a != b
    ensures Asks([a, b], 3, {b}, -1, b, false) == None
  {
    UnknownParent([a, b], 3, {b}, 1, 2);
    assert Parent(3, 2) == 0 by { DivIsUnique(1, 3, 0, 1); }
    assert forall p: nat :: p > 0 ==> !Below(3, p, 2);
  }
}
