/** Building the parent map level by level (getMerkleProof of libdevcore/TrieHash2.cpp). */
module MerkleMap {
  import opened Prelude
  import opened Bytes
  import opened Trie
  import opened Merkle
  import opened MerkleProof

  ghost predicate Holds(m: ParentMap, q: string, cs: seq<string>) {
    q in m && m[q] == cs
  }

  /** Parent number i of a level is listed with its children. */
  ghost predicate Listed(tops: seq<string>, lists: seq<seq<string>>, i: nat, q: string, cs: seq<string>) {
    i < |tops| && i < |lists| && q == tops[i] && cs == lists[i]
  }

  /** The map m0 with the parents that are not in todo. */
  ghost predicate Adds(tops: seq<string>, lists: seq<seq<string>>, m0: ParentMap, m: ParentMap, todo: set<nat>) {
    forall q, cs :: Holds(m, q, cs) <==>
      Holds(m0, q, cs) || exists i: nat :: i !in todo && Listed(tops, lists, i, q, cs)
  }

  ghost predicate AllNew(tops: seq<string>, m: ParentMap) {
    forall i :: 0 <= i < |tops| ==> tops[i] !in m
  }

  lemma AddsNone(tops: seq<string>, lists: seq<seq<string>>, m0: ParentMap, todo: set<nat>)
    requires forall i :: 0 <= i < |tops| ==> i in todo
    ensures Adds(tops, lists, m0, m0, todo)
  {
  }

  lemma AddsOne(tops: seq<string>, lists: seq<seq<string>>, m0: ParentMap, m: ParentMap, todo: set<nat>, i: nat)
    requires |tops| == |lists| && Distinct(tops) && AllNew(tops, m0)
    requires i in todo && i < |tops| && Adds(tops, lists, m0, m, todo)
    ensures tops[i] !in m && Adds(tops, lists, m0, m[tops[i] := lists[i]], todo - {i})
  {
    assert tops[i] in m ==> Holds(m, tops[i], m[tops[i]]);
    var m1 := m[tops[i] := lists[i]];
    forall q, cs
      ensures Holds(m1, q, cs) <==>
        Holds(m0, q, cs) || exists k: nat :: k !in todo - {i} && Listed(tops, lists, k, q, cs)
    {
      AddsPair(tops, lists, m0, m, todo, i, q, cs);
    }
  }

  lemma AddsPair(tops: seq<string>, lists: seq<seq<string>>, m0: ParentMap, m: ParentMap, todo: set<nat>, i: nat,
                 q: string, cs: seq<string>)
    requires |tops| == |lists| && AllNew(tops, m0) && i in todo && i < |tops| && tops[i] !in m
    requires Adds(tops, lists, m0, m, todo)
    ensures Holds(m[tops[i] := lists[i]], q, cs) <==>
      Holds(m0, q, cs) || exists k: nat :: k !in todo - {i} && Listed(tops, lists, k, q, cs)
  {
    assert Holds(m, q, cs) <==>
      Holds(m0, q, cs) || exists k: nat :: k !in todo && Listed(tops, lists, k, q, cs);
    if Listed(tops, lists, i, q, cs) {
      assert i !in todo - {i};
    } else if k: nat :| k !in todo && Listed(tops, lists, k, q, cs) {
      assert k !in todo - {i};
    }
  }

  /** Appends the children of a node under its name. */
  method AddChildren(m0: ParentMap, parent: string, children: seq<seq<byte>>) returns (m: ParentMap)
    requires children != []
    ensures m == m0[parent := (if parent in m0 then m0[parent] else []) + Hexes(children)]
  {
    var list := if parent in m0 then m0[parent] else [];
    ghost var before := list;
    for k := 0 to |children|
      invariant list == before + Hexes(children[..k])
    {
      HexesMore(before, children, k, k + 1);
      list := list + [ToHex(children[k])];
    }
    assert children[..|children|] == children;
    m := m0[parent := list];
  }

  lemma HexesMore(before: seq<string>, l: seq<seq<byte>>, k: nat, n: nat)
    requires k < |l| && n == k + 1
    ensures before + Hexes(l[..n]) == before + Hexes(l[..k]) + [ToHex(l[k])]
  {
    assert l[..n] == l[..k] + [l[k]];
    assert Hexes(l[..n]) == Hexes(l[..k]) + [ToHex(l[k])];
  }

  /** The child lists of a level. */
  ghost function Lists(l: seq<seq<byte>>): (r: seq<seq<string>>)
    ensures |r| == (|l| + WIDTH - 1) / WIDTH
  {
    seq((|l| + WIDTH - 1) / WIDTH, i requires 0 <= i < (|l| + WIDTH - 1) / WIDTH => Hexes(Chunk(l, i)))
  }

  /** The map holds the levels below `level`, and none of the keys still to come. */
  ghost predicate Halfway(h: Hash, leaves: seq<seq<byte>>, level: seq<seq<byte>>, m: ParentMap)
    requires leaves != [] && level != []
  {
    && (forall q, cs :: HasChildren(h, leaves, q, cs) <==> Holds(m, q, cs) || HasChildren(h, level, q, cs))
    && AllNew(Hexes(Above(h, level)), m)
  }

  lemma NewAbove(u: seq<seq<byte>>, a: seq<seq<byte>>, m: ParentMap)
    requires AllNew(Hexes(u + a), m)
    ensures AllNew(Hexes(u), m) && AllNew(Hexes(a), m)
  {
    HexesAppend(u, a);
    NewParts(Hexes(u), Hexes(a), m);
  }

  lemma AboveIs(h: Hash, level: seq<seq<byte>>)
    requires |level| > 1
    ensures Above(h, level) == Up(h, level) + Above(h, Up(h, level))
  {
  }

  lemma HexesAppend(a: seq<seq<byte>>, b: seq<seq<byte>>)
    ensures Hexes(a + b) == Hexes(a) + Hexes(b)
  {
  }

  lemma NewParts(v: seq<string>, a: seq<string>, m: ParentMap)
    requires AllNew(v + a, m)
    ensures AllNew(v, m) && AllNew(a, m)
  {
    forall i | 0 <= i < |v| ensures v[i] !in m { assert (v + a)[i] == v[i]; }
    forall i | 0 <= i < |a| ensures a[i] !in m { assert (v + a)[|v| + i] == a[i]; }
  }

  lemma LevelIsListed(h: Hash, l: seq<seq<byte>>, q: string, cs: seq<string>)
    ensures InLevel(h, l, q, cs) <==> exists i: nat :: i !in {} && Listed(Hexes(Up(h, l)), Lists(l), i, q, cs)
  {
    if InLevel(h, l, q, cs) {
      var i: nat :| i < |Up(h, l)| && IsNode(h, l, i, q, cs);
      assert i !in {} && Listed(Hexes(Up(h, l)), Lists(l), i, q, cs);
    }
    if i: nat :| i !in {} && Listed(Hexes(Up(h, l)), Lists(l), i, q, cs) {
      assert IsNode(h, l, i, q, cs);
    }
  }

  lemma HalfwayUp(h: Hash, leaves: seq<seq<byte>>, level: seq<seq<byte>>, m0: ParentMap, m: ParentMap)
    requires leaves != [] && |level| > 1 && Distinct(Names(h, Up(h, level)))
    requires Halfway(h, leaves, level, m0) && Adds(Hexes(Up(h, level)), Lists(level), m0, m, {})
    ensures Halfway(h, leaves, Up(h, level), m)
  {
    var u := Up(h, level);
    forall q, cs
      ensures HasChildren(h, leaves, q, cs) <==> Holds(m, q, cs) || HasChildren(h, u, q, cs)
    {
      LevelIsListed(h, level, q, cs);
    }
    AboveIs(h, level);
    NewAbove(u, Above(h, u), m0);
    var a := Hexes(Above(h, u));
    forall k | 0 <= k < |a| ensures a[k] !in m {
      if a[k] in m {
        assert Holds(m, a[k], m[a[k]]);
        var i: nat :| i !in {} && Listed(Hexes(u), Lists(level), i, a[k], m[a[k]]);
        assert Has(Hexes(u), a[k]) && Has(a, a[k]);
        DistinctParts(Hexes(u), a, a[k]);
      }
    }
  }

  /** The last node is entered under the root. */
  lemma HalfwayDone(h: Hash, leaves: seq<seq<byte>>, level: seq<seq<byte>>, m: ParentMap)
    requires leaves != [] && |level| == 1 && Halfway(h, leaves, level, m)
    ensures ToHex(h(level[0])) !in m
    ensures Records(h, leaves, m[ToHex(h(level[0])) := Hexes(level)])
  {
    assert Hexes(Above(h, level))[0] == ToHex(h(level[0]));
    var m1 := m[ToHex(h(level[0])) := Hexes(level)];
    forall q, cs | HasChildren(h, leaves, q, cs) ensures q in m1 && m1[q] == cs {
      if !HasChildren(h, level, q, cs) { assert Holds(m, q, cs); }
    }
    forall q | q in m1 ensures HasChildren(h, leaves, q, m1[q]) {
      if q in m { assert Holds(m, q, m[q]); } else { assert HasChildren(h, level, q, m1[q]); }
    }
  }

  /** getMerkleProof of TrieHash2.cpp. The nodes of a level are entered in any order. */
  method ParentToChildren(h: Hash, leaves: seq<seq<byte>>) returns (m: ParentMap)
    requires leaves != [] ==> Distinct(AllNodes(h, leaves))
    ensures leaves == [] ==> m == map[]
    ensures leaves != [] ==> Records(h, leaves, m)
  {
    m := map[];
    if leaves == [] { return; }
    DistinctNames(h, leaves);
    var level := leaves;
    while |level| > 1
      invariant level != [] && Halfway(h, leaves, level, m) && Distinct(Names(h, level))
      decreases |level|
    {
      NamesUp(h, level);
      DistinctParts(Hexes(level), Names(h, Up(h, level)), "");
      ghost var below, m0 := level, m;
      m, level := EnterLevel(h, level, m);
      HalfwayUp(h, leaves, below, m0, m);
    }
    HalfwayDone(h, leaves, level, m);
    m := AddChildren(m, ToHex(h(level[0])), level[..1]);
    assert level[..1] == level;
  }

  /** The parallel loop over the nodes of one level. */
  method EnterLevel(h: Hash, level: seq<seq<byte>>, m0: ParentMap) returns (m: ParentMap, higher: seq<seq<byte>>)
    requires |level| > 1 && AllNew(Hexes(Above(h, level)), m0) && Distinct(Names(h, Up(h, level)))
    ensures higher == Up(h, level) && Adds(Hexes(Up(h, level)), Lists(level), m0, m, {})
  {
    m := m0;
    var size := (|level| + WIDTH - 1) / WIDTH;
    higher := seq(size, _ => []);
    var todo := Indices(size);
    ghost var tops, lists := Hexes(Up(h, level)), Lists(level);
    AddsNone(tops, lists, m0, todo);
    LevelIsNew(h, level, m0);
    while todo != {}
      invariant |higher| == size && forall i :: i in todo ==> 0 <= i < size
      invariant forall i :: 0 <= i < size && i !in todo ==> higher[i] == Up(h, level)[i]
      invariant Adds(tops, lists, m0, m, todo)
    {
      var i :| i in todo;
      var parent;
      m, parent := EnterNode(h, level, m0, m, todo, i);
      higher := higher[i := parent];
      todo := todo - {i};
    }
  }

  lemma LevelIsNew(h: Hash, level: seq<seq<byte>>, m: ParentMap)
    requires |level| > 1 && AllNew(Hexes(Above(h, level)), m) && Distinct(Names(h, Up(h, level)))
    ensures AllNew(Hexes(Up(h, level)), m) && Distinct(Hexes(Up(h, level)))
  {
    AboveIs(h, level);
    NewAbove(Up(h, level), Above(h, Up(h, level)), m);
    DistinctParts(Hexes(Up(h, level)), Hexes(Above(h, Up(h, level))), "");
  }

  /** The body of that loop. */
  method EnterNode(h: Hash, level: seq<seq<byte>>, ghost m0: ParentMap, m: ParentMap, ghost todo: set<nat>, i: nat)
    returns (m': ParentMap, parent: seq<byte>)
    requires i < |Up(h, level)| && i in todo && Adds(Hexes(Up(h, level)), Lists(level), m0, m, todo)
    requires Distinct(Hexes(Up(h, level))) && AllNew(Hexes(Up(h, level)), m0)
    ensures parent == Up(h, level)[i] && Adds(Hexes(Up(h, level)), Lists(level), m0, m', todo - {i})
  {
    var b, children := Join(level, i);
    parent := h(b);
    AddsOne(Hexes(Up(h, level)), Lists(level), m0, m, todo, i);
    ListAt(h, level, i);
    m' := AddChildren(m, ToHex(parent), children);
  }

  lemma ListAt(h: Hash, l: seq<seq<byte>>, i: nat)
    requires i < |Up(h, l)|
    ensures Hexes(Up(h, l))[i] == ToHex(h(Concat(Chunk(l, i))))
    ensures [] + Hexes(Chunk(l, i)) == Lists(l)[i]
  {
  }
}
