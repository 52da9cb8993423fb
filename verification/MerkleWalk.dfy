/** Walking from a leaf to the root (parseMerkleMap and getMerkleProof of libblockchain/BlockChainImp.cpp), and
    why folding the hashes along the way gives the root. */
module MerkleWalk {
  import opened Prelude
  import opened Bytes
  import opened Trie
  import opened Merkle
  import opened MerkleProof
  import opened MerkleMap

  type ChildMap = map<string, string>

  /** One step of a proof: the siblings on the left and on the right. */
  type Siblings = (seq<string>, seq<string>)

  /** Every child that is not empty is entered under one of its parents, and nothing else is entered. */
  ghost predicate Parsed(m: ParentMap, c2p: ChildMap) {
    && (forall c :: c in c2p ==> c != "" && c2p[c] in m && Has(m[c2p[c]], c))
    && forall q, c :: q in m && Has(m[q], c) && c != "" ==> c in c2p
  }

  /** parseMerkleMap. Parents and children are visited in any order; an empty child is left out. */
  method ParseMerkleMap(m: ParentMap) returns (c2p: ChildMap)
    ensures Parsed(m, c2p)
  {
    c2p := map[];
    var todo := m.Keys;
    while todo != {}
      invariant todo <= m.Keys
      invariant forall c :: c in c2p ==> c != "" && c2p[c] in m && Has(m[c2p[c]], c)
      invariant forall q, c :: q in m && q !in todo && Has(m[q], c) && c != "" ==> c in c2p
    {
      var q :| q in todo;
      ghost var before := c2p;
      c2p := EnterChildren(c2p, q, m[q]);
      todo := todo - {q};
    }
  }

  method EnterChildren(c0: ChildMap, q: string, children: seq<string>) returns (c2p: ChildMap)
    ensures forall c :: c in c2p <==> c in c0 || (c != "" && Has(children, c))
    ensures forall c :: c in c2p ==> c2p[c] == if Has(children, c) && c != "" then q else c0[c]
  {
    c2p := c0;
    var left := Indices(|children|);
    while left != {}
      invariant forall i :: i in left ==> 0 <= i < |children|
      invariant forall c :: c in c2p <==> c in c0 || (c != "" && HasOutside(children, left, c))
      invariant forall c :: c in c2p ==> c2p[c] == if HasOutside(children, left, c) && c != "" then q else c0[c]
    {
      var i :| i in left;
      OneLess(children, left, i);
      if children[i] != "" { c2p := c2p[children[i] := q]; }
      left := left - {i};
    }
    forall c ensures HasOutside(children, {}, c) <==> Has(children, c) {
      if Has(children, c) { var k: nat :| k < |children| && children[k] == c; assert k !in {}; }
    }
  }

  /** The string stands at an index that is not in the set. */
  ghost predicate HasOutside(s: seq<string>, left: set<nat>, x: string) {
    exists i: nat :: i < |s| && i !in left && s[i] == x
  }

  lemma OneLess(s: seq<string>, left: set<nat>, i: nat)
    requires i in left && i < |s|
    ensures forall x :: HasOutside(s, left - {i}, x) <==> HasOutside(s, left, x) || x == s[i]
  {
    forall x ensures HasOutside(s, left - {i}, x) <==> HasOutside(s, left, x) || x == s[i] {
      if HasOutside(s, left, x) {
        var k: nat :| k < |s| && k !in left && s[k] == x;
        assert k !in left - {i};
      }
      if x == s[i] { assert i !in left - {i}; }
    }
  }

  /** std::find: the first place of x, or the end. */
  function Find(s: seq<string>, x: string): (k: nat)
    ensures k <= |s| && (k < |s| ==> s[k] == x) && forall i :: 0 <= i < k ==> s[i] != x
  {
    if s == [] || s[0] == x then 0 else 1 + Find(s[1..], x)
  }

  /** Parents are nearer to the root: a rank that falls at every step. */
  ghost predicate Falls(c2p: ChildMap, rank: string -> nat) {
    forall c :: c in c2p ==> rank(c2p[c]) < rank(c)
  }

  /** The proof that is collected from a node on. */
  ghost function Walk(m: ParentMap, c2p: ChildMap, rank: string -> nat, node: string): seq<Siblings>
    requires Falls(c2p, rank)
    decreases rank(node)
  {
    if node !in c2p || c2p[node] !in m then []
    else
      var list := m[c2p[node]];
      var k := Find(list, node);
      if k == |list| then []
      else [(list[..k], list[k + 1..])] + Walk(m, c2p, rank, c2p[node])
  }

  /** getMerkleProof. It ends because the maps lead from children to parents. */
  method GetMerkleProof(txHash: seq<byte>, m: ParentMap, c2p: ChildMap, ghost rank: string -> nat)
    returns (proof: seq<Siblings>)
    requires Falls(c2p, rank)
    ensures proof == Walk(m, c2p, rank, ToHex(txHash))
  {
    proof := [];
    var node := ToHex(txHash);
    while node in c2p
      invariant proof + Walk(m, c2p, rank, node) == Walk(m, c2p, rank, ToHex(txHash))
      decreases rank(node)
    {
      var parent := c2p[node];
      if parent !in m { break; }
      var list := m[parent];
      var k := Find(list, node);
      if k == |list| { break; }
      ghost var rest := Walk(m, c2p, rank, parent);
      assert proof + ([(list[..k], list[k + 1..])] + rest) == proof + [(list[..k], list[k + 1..])] + rest;
      proof := proof + [(list[..k], list[k + 1..])];
      node := parent;
    }
    assert Walk(m, c2p, rank, node) == [] ==> proof + [] == proof;
  }

  function ConcatHex(l: seq<string>): seq<byte> {
    if l == [] then [] else FromHex(l[0]) + ConcatHex(l[1..])
  }

  /** What a verifier computes: the hash of left siblings, node and right siblings, step by step. */
  function Fold(h: Hash, node: seq<byte>, proof: seq<Siblings>): seq<byte>
    decreases |proof|
  {
    if proof == [] then node
    else Fold(h, h(ConcatHex(proof[0].0) + node + ConcatHex(proof[0].1)), proof[1..])
  }

  lemma {:induction false} ConcatHexes(l: seq<seq<byte>>)
    ensures ConcatHex(Hexes(l)) == Concat(l)
  {
    if l == [] {
    } else {
      FromToHex(l[0]);
      ConcatHexes(l[1..]);
      assert Hexes(l)[1..] == Hexes(l[1..]);
    }
  }

  lemma {:induction false} ConcatSplits(l: seq<seq<byte>>, k: nat)
    requires k < |l|
    ensures Concat(l[..k]) + l[k] + Concat(l[k + 1..]) == Concat(l)
  {
    if k == 0 {
    } else {
      ConcatSplits(l[1..], k - 1);
      assert l[..k] == [l[0]] + l[1..][..k - 1];
      assert l[1..][k - 1 + 1..] == l[k + 1..];
      assert l[0] + (Concat(l[1..][..k - 1]) + l[k] + Concat(l[k + 1..])) == Concat(l[..k]) + l[k] + Concat(l[k + 1..]);
    }
  }

  /** The number of levels above these nodes, the root included. */
  ghost function Height(h: Hash, l: seq<seq<byte>>): nat
    requires l != []
    decreases |l|
  {
    if |l| == 1 then 1 else 1 + Height(h, Up(h, l))
  }

  function Pow16(k: nat): nat {
    if k == 0 then 1 else 16 * Pow16(k - 1)
  }

  /** Trees of up to 16 to the k leaves have k levels above the leaves and the root. */
  lemma {:induction false} HeightOfLeaves(h: Hash, l: seq<seq<byte>>, k: nat)
    requires l != []
    ensures Height(h, l) <= k + 1 <==> |l| <= Pow16(k)
    decreases |l|
  {
    if |l| == 1 {
      Pow16Positive(k);
    } else if k > 0 {
      SixteenChildren(h, l, 0);
      HeightOfLeaves(h, Up(h, l), k - 1);
    }
  }

  lemma {:induction false} Pow16Positive(k: nat)
    ensures Pow16(k) >= 1
  {
    if k > 0 { Pow16Positive(k - 1); }
  }

  ghost function RankOf(h: Hash, l: seq<seq<byte>>, x: string): nat
    requires l != []
    decreases |l|
  {
    if Has(Hexes(l), x) then Height(h, l)
    else if |l| == 1 then 0
    else RankOf(h, Up(h, l), x)
  }

  /** The child map of the tree, as far as it matters here. */
  ghost predicate Inverts(h: Hash, l: seq<seq<byte>>, c2p: ChildMap)
    requires l != []
  {
    forall q, cs, c :: HasChildren(h, l, q, cs) && Has(cs, c) && c != "" ==> c in c2p && c2p[c] == q
  }

  lemma ParsedInverts(h: Hash, l: seq<seq<byte>>, m: ParentMap, c2p: ChildMap)
    requires l != [] && Distinct(AllNodes(h, l)) && Records(h, l, m) && Parsed(m, c2p)
    ensures Inverts(h, l, c2p)
  {
    DistinctNames(h, l);
    forall q, cs, c | HasChildren(h, l, q, cs) && Has(cs, c) && c != ""
      ensures c in c2p && c2p[c] == q
    {
      assert m[q] == cs;
      ParentUnique(h, l, q, cs, c2p[c], m[c2p[c]], c);
    }
  }

  lemma {:induction false} RankFalls(h: Hash, l: seq<seq<byte>>, q: string, cs: seq<string>, c: string)
    requires l != [] && Distinct(Names(h, l)) && HasChildren(h, l, q, cs) && Has(cs, c)
    ensures RankOf(h, l, q) < RankOf(h, l, c)
    decreases |l|
  {
    ChildrenAreNodes(h, l, q, cs, c);
    ParentsAreAbove(h, l, q, cs);
    DistinctParts(Hexes(l), Hexes(Above(h, l)), q);
    if |l| <= 1 {
    } else {
      var u := Up(h, l);
      NamesUp(h, l);
      DistinctParts(Hexes(l), Names(h, u), c);
      if InLevel(h, l, q, cs) {
        var i: nat :| i < |u| && IsNode(h, l, i, q, cs);
        assert Hexes(u)[i] == q;
      } else {
        RankFalls(h, u, q, cs, c);
      }
    }
  }

  /** The tree's rank falls along the child map, so the walk ends. */
  lemma WalkEnds(h: Hash, l: seq<seq<byte>>, m: ParentMap, c2p: ChildMap)
    requires l != [] && Distinct(AllNodes(h, l)) && Records(h, l, m) && Parsed(m, c2p)
    ensures Falls(c2p, x => RankOf(h, l, x))
  {
    DistinctNames(h, l);
    forall c | c in c2p ensures RankOf(h, l, c2p[c]) < RankOf(h, l, c) {
      RankFalls(h, l, c2p[c], m[c2p[c]], c);
    }
  }

  /** Levels are found again in the whole tree. */
  ghost predicate Within(h: Hash, l: seq<seq<byte>>, m: ParentMap, c2p: ChildMap)
    requires l != []
  {
    && (forall q, cs :: HasChildren(h, l, q, cs) ==> q in m && m[q] == cs)
    && Inverts(h, l, c2p)
    && ToHex(MerkleRoot(h, l)) !in c2p
  }

  lemma WithinUp(h: Hash, l: seq<seq<byte>>, m: ParentMap, c2p: ChildMap)
    requires |l| > 1 && Within(h, l, m, c2p)
    ensures Within(h, Up(h, l), m, c2p)
  {
    assert forall q, cs :: HasChildren(h, Up(h, l), q, cs) ==> HasChildren(h, l, q, cs);
  }

  lemma {:induction false} FindDistinct(s: seq<string>, k: nat)
    requires k < |s| && Distinct(s)
    ensures Find(s, s[k]) == k
  {
  }

  /** One step of the walk, from the node at k of a list of siblings to their parent. */
  lemma StepFolds(h: Hash, c: seq<seq<byte>>, k: nat, q: string, m: ParentMap, c2p: ChildMap, rank: string -> nat)
    requires k < |c| && Distinct(Hexes(c)) && Falls(c2p, rank)
    requires ToHex(c[k]) in c2p && c2p[ToHex(c[k])] == q && q in m && m[q] == Hexes(c)
    ensures Fold(h, c[k], Walk(m, c2p, rank, ToHex(c[k]))) == Fold(h, h(Concat(c)), Walk(m, c2p, rank, q))
    ensures |Walk(m, c2p, rank, ToHex(c[k]))| == 1 + |Walk(m, c2p, rank, q)|
  {
    FindDistinct(Hexes(c), k);
    var left, right, rest := Hexes(c)[..k], Hexes(c)[k + 1..], Walk(m, c2p, rank, q);
    assert left == Hexes(c[..k]) && right == Hexes(c[k + 1..]);
    ConcatHexes(c[..k]);
    ConcatHexes(c[k + 1..]);
    ConcatSplits(c, k);
    var p := [(left, right)] + rest;
    assert p[1..] == rest && p[0] == (left, right);
    assert Walk(m, c2p, rank, ToHex(c[k])) == p;
  }

  lemma {:induction false} RootIsAbove(h: Hash, l: seq<seq<byte>>)
    requires l != []
    ensures Has(Hexes(Above(h, l)), ToHex(MerkleRoot(h, l)))
    decreases |l|
  {
    if |l| == 1 {
      assert Hexes(Above(h, l))[0] == ToHex(MerkleRoot(h, l));
    } else {
      RootIsAbove(h, Up(h, l));
      AboveUp(h, l, ToHex(MerkleRoot(h, l)));
    }
  }

  lemma {:induction false} RootIsNoChild(h: Hash, l: seq<seq<byte>>, q: string, cs: seq<string>)
    requires l != [] && Distinct(Names(h, l)) && HasChildren(h, l, q, cs)
    ensures !Has(cs, ToHex(MerkleRoot(h, l)))
    decreases |l|
  {
    var root := ToHex(MerkleRoot(h, l));
    if Has(cs, root) {
      ChildrenAreNodes(h, l, q, cs, root);
      RootIsAbove(h, l);
      DistinctParts(Hexes(l), Hexes(Above(h, l)), root);
      NamesOfUp(h, l);
      RootIsNoChild(h, Up(h, l), q, cs);
    }
  }

  lemma NamesOfUp(h: Hash, l: seq<seq<byte>>)
    requires l != [] && Distinct(Names(h, l))
    ensures |l| > 1 ==> Distinct(Names(h, Up(h, l)))
  {
    if |l| > 1 {
      NamesUp(h, l);
      DistinctParts(Hexes(l), Names(h, Up(h, l)), "");
    }
  }

  lemma TreeIsWithin(h: Hash, l: seq<seq<byte>>, m: ParentMap, c2p: ChildMap)
    requires l != [] && Distinct(AllNodes(h, l)) && Records(h, l, m) && Parsed(m, c2p)
    ensures Within(h, l, m, c2p)
  {
    ParsedInverts(h, l, m, c2p);
    DistinctNames(h, l);
    var root := ToHex(MerkleRoot(h, l));
    assert root in c2p ==> HasChildren(h, l, c2p[root], m[c2p[root]]) && Has(m[c2p[root]], root);
    if root in c2p { RootIsNoChild(h, l, c2p[root], m[c2p[root]]); }
  }

  /** From any node of a level, the collected proof folds to the root, and it has a step for every level. */
  lemma {:induction false} WalkFolds(h: Hash, l: seq<seq<byte>>, m: ParentMap, c2p: ChildMap,
                                      rank: string -> nat, k: nat)
    requires Is256(h) && k < |l| && l[k] != []
    requires Distinct(Names(h, l)) && Within(h, l, m, c2p) && Falls(c2p, rank)
    ensures Fold(h, l[k], Walk(m, c2p, rank, ToHex(l[k]))) == MerkleRoot(h, l)
    ensures |Walk(m, c2p, rank, ToHex(l[k]))| == Height(h, l)
    decreases |l|
  {
    DistinctParts(Hexes(l), Hexes(Above(h, l)), "");
    if |l| == 1 {
      LastStep(h, l, m, c2p, rank);
    } else {
      var i, j := k / WIDTH, k % WIDTH;
      assert WIDTH * i + j == k;
      ChunkAt(l, i, j);
      LevelStep(h, l, i, j, m, c2p, rank);
      WithinUp(h, l, m, c2p);
      NamesOfUp(h, l);
      WalkFolds(h, Up(h, l), m, c2p, rank, i);
    }
  }

  lemma LastStep(h: Hash, l: seq<seq<byte>>, m: ParentMap, c2p: ChildMap, rank: string -> nat)
    requires |l| == 1 && l[0] != [] && Distinct(Hexes(l)) && Within(h, l, m, c2p) && Falls(c2p, rank)
    ensures Fold(h, l[0], Walk(m, c2p, rank, ToHex(l[0]))) == MerkleRoot(h, l)
    ensures |Walk(m, c2p, rank, ToHex(l[0]))| == 1
  {
    assert Hexes(l)[0] == ToHex(l[0]);
    assert HasChildren(h, l, ToHex(h(l[0])), Hexes(l)) && Has(Hexes(l), ToHex(l[0]));
    StepFolds(h, l, 0, ToHex(h(l[0])), m, c2p, rank);
    assert Concat(l) == l[0] + [] == l[0];
  }

  lemma LevelStep(h: Hash, l: seq<seq<byte>>, i: nat, j: nat, m: ParentMap, c2p: ChildMap, rank: string -> nat)
    requires Is256(h) && |l| > 1 && i < |Up(h, l)| && j < |Chunk(l, i)| && Chunk(l, i)[j] != []
    requires Distinct(Hexes(Chunk(l, i))) && Within(h, l, m, c2p) && Falls(c2p, rank)
    ensures var x, u := Chunk(l, i)[j], Up(h, l)[i];
      && Fold(h, x, Walk(m, c2p, rank, ToHex(x))) == Fold(h, u, Walk(m, c2p, rank, ToHex(u)))
      && |Walk(m, c2p, rank, ToHex(x))| == 1 + |Walk(m, c2p, rank, ToHex(u))|
      && u != []
  {
    InChunk(h, l, i, j);
    StepIsMapped(h, l, m, c2p, ToHex(Up(h, l)[i]), Hexes(Chunk(l, i)), ToHex(Chunk(l, i)[j]));
    StepFolds(h, Chunk(l, i), j, ToHex(Up(h, l)[i]), m, c2p, rank);
    assert |Up(h, l)[i]| == 32;
  }

  lemma StepIsMapped(h: Hash, l: seq<seq<byte>>, m: ParentMap, c2p: ChildMap, q: string, cs: seq<string>, c: string)
    requires l != [] && Within(h, l, m, c2p) && HasChildren(h, l, q, cs) && Has(cs, c) && c != ""
    ensures c in c2p && c2p[c] == q && q in m && m[q] == cs
  {
    ChildIsMapped(h, l, c2p, q, cs, c);
    assert HasChildren(h, l, q, cs) ==> q in m && m[q] == cs;
  }

  lemma ChildIsMapped(h: Hash, l: seq<seq<byte>>, c2p: ChildMap, q: string, cs: seq<string>, c: string)
    requires l != [] && Inverts(h, l, c2p) && HasChildren(h, l, q, cs) && Has(cs, c) && c != ""
    ensures c in c2p && c2p[c] == q
  {
  }

  lemma InChunk(h: Hash, l: seq<seq<byte>>, i: nat, j: nat)
    requires |l| > 1 && i < |Up(h, l)| && j < |Chunk(l, i)|
    ensures HasChildren(h, l, ToHex(Up(h, l)[i]), Hexes(Chunk(l, i)))
    ensures Has(Hexes(Chunk(l, i)), ToHex(Chunk(l, i)[j]))
  {
    assert IsNode(h, l, i, ToHex(Up(h, l)[i]), Hexes(Chunk(l, i)));
    assert Hexes(Chunk(l, i))[j] == ToHex(Chunk(l, i)[j]);
  }

  lemma ChunkAt(l: seq<seq<byte>>, i: nat, j: nat)
    requires WIDTH * i + j < |l| && j < WIDTH && Distinct(Hexes(l))
    ensures i < (|l| + WIDTH - 1) / WIDTH
    ensures var c := Chunk(l, i); Distinct(Hexes(c)) && j < |c| && c[j] == l[WIDTH * i + j]
  {
    var c, s := Chunk(l, i), WIDTH * i;
    assert forall n :: 0 <= n < |c| ==> c[n] == l[s + n];
    forall a, b | 0 <= a < b < |c| ensures Hexes(c)[a] != Hexes(c)[b] {
      assert Hexes(l)[s + a] != Hexes(l)[s + b];
    }
  }

  /** The proof of a leaf folds to the root exactly when the leaf is not the empty string. */
  lemma ProofIsComplete(h: Hash, l: seq<seq<byte>>, m: ParentMap, c2p: ChildMap,
                                      rank: string -> nat, k: nat)
    requires Is256(h) && k < |l| && Distinct(AllNodes(h, l))
    requires Records(h, l, m) && Parsed(m, c2p) && Falls(c2p, rank)
    ensures Fold(h, l[k], Walk(m, c2p, rank, ToHex(l[k]))) == MerkleRoot(h, l) <==> l[k] != []
  {
    TreeIsWithin(h, l, m, c2p);
    DistinctNames(h, l);
    if l[k] != [] {
      WalkFolds(h, l, m, c2p, rank, k);
    } else {
      RootIs256(h, l);
      assert Walk(m, c2p, rank, "") == [];
    }
  }

  /** The proof of a leaf has at most k + 1 steps exactly when there are at most 16 to the k leaves. */
  lemma ProofLength(h: Hash, l: seq<seq<byte>>, m: ParentMap, c2p: ChildMap, rank: string -> nat, i: nat, k: nat)
    requires Is256(h) && i < |l| && l[i] != [] && Distinct(AllNodes(h, l))
    requires Records(h, l, m) && Parsed(m, c2p) && Falls(c2p, rank)
    ensures |Walk(m, c2p, rank, ToHex(l[i]))| <= k + 1 <==> |l| <= Pow16(k)
  {
    TreeIsWithin(h, l, m, c2p);
    DistinctNames(h, l);
    WalkFolds(h, l, m, c2p, rank, i);
    HeightOfLeaves(h, l, k);
  }

  /** A tree with one empty leaf: its nodes are distinct, and the proof of the leaf does not fold to the root. */
  lemma EmptyLeafExample(h: Hash, m: ParentMap, c2p: ChildMap, rank: string -> nat)
    requires Is256(h) && Records(h, [[]], m) && Parsed(m, c2p) && Falls(c2p, rank)
    ensures Distinct(AllNodes(h, [[]]))
    ensures Fold(h, [], Walk(m, c2p, rank, ToHex([]))) != MerkleRoot(h, [[]])
  {
    var l: seq<seq<byte>> := [[]];
    assert AllNodes(h, l) == [[], h([])] && |h([])| == 32;
    ProofIsComplete(h, l, m, c2p, rank, 0);
  }

  lemma {:induction false} RootIs256(h: Hash, l: seq<seq<byte>>)
    requires Is256(h)
    ensures |MerkleRoot(h, l)| == 32
    decreases |l|
  {
    if |l| <= 1 {
    } else {
      RootIs256(h, Up(h, l));
    }
  }

  /** The three steps after one another, as they are taken for a transaction: the parent map, the child map,
      the walk. */
  method ProveLeaf(h: Hash, l: seq<seq<byte>>, k: nat) returns (proof: seq<Siblings>)
    requires Is256(h) && k < |l| && Distinct(AllNodes(h, l))
    ensures Fold(h, l[k], proof) == MerkleRoot(h, l) <==> l[k] != []
  {
    var m := ParentToChildren(h, l);
    var c2p := ParseMerkleMap(m);
    WalkEnds(h, l, m, c2p);
    ghost var rank := x => RankOf(h, l, x);
    proof := GetMerkleProof(l[k], m, c2p, rank);
    ProofIsComplete(h, l, m, c2p, rank, k);
  }
}
