/** Merkle proofs: the parent map (libdevcore/TrieHash2.cpp), and the walk from a leaf to the root
    (libblockchain/BlockChainImp.cpp). */
module MerkleProof {
  import opened Prelude
  import opened Bytes
  import opened Trie
  import opened Merkle

  type ParentMap = map<string, seq<string>>

  /** Parent q has the children cs at this level of the tree or above. */
  ghost predicate HasChildren(h: Hash, l: seq<seq<byte>>, q: string, cs: seq<string>)
    requires l != []
    decreases |l|
  {
    if |l| == 1 then q == ToHex(h(l[0])) && cs == Hexes(l)
    else InLevel(h, l, q, cs) || HasChildren(h, Up(h, l), q, cs)
  }

  ghost predicate InLevel(h: Hash, l: seq<seq<byte>>, q: string, cs: seq<string>) {
    exists i: nat :: i < |Up(h, l)| && IsNode(h, l, i, q, cs)
  }

  ghost predicate IsNode(h: Hash, l: seq<seq<byte>>, i: nat, q: string, cs: seq<string>)
    requires i < |Up(h, l)|
  {
    q == ToHex(Up(h, l)[i]) && cs == Hexes(Chunk(l, i))
  }

  /** The map says what the children of every parent are, and has no other keys. */
  ghost predicate Records(h: Hash, l: seq<seq<byte>>, m: ParentMap)
    requires l != []
  {
    && (forall q, cs :: HasChildren(h, l, q, cs) ==> q in m && m[q] == cs)
    && forall q :: q in m ==> HasChildren(h, l, q, m[q])
  }

  ghost predicate Has<T>(s: seq<T>, x: T) {
    exists i :: 0 <= i < |s| && s[i] == x
  }

  /** The hex strings of the nodes of the tree: those of the level, then those above it. */
  function Names(h: Hash, l: seq<seq<byte>>): seq<string>
    requires l != []
  {
    Hexes(l) + Hexes(Above(h, l))
  }

  lemma DistinctNames(h: Hash, l: seq<seq<byte>>)
    requires l != [] && Distinct(AllNodes(h, l))
    ensures Distinct(Names(h, l))
  {
    var a, n := AllNodes(h, l), Names(h, l);
    forall i | 0 <= i < |n| ensures n[i] == ToHex(a[i]) {}
    forall i, j | 0 <= i < j < |n| ensures n[i] != n[j] {
      FromToHex(a[i]);
      FromToHex(a[j]);
    }
  }

  lemma DistinctParts(p: seq<string>, q: seq<string>, x: string)
    requires Distinct(p + q)
    ensures Distinct(p) && Distinct(q) && !(Has(p, x) && Has(q, x))
  {
    var s := p + q;
    forall i, j | 0 <= i < j < |p| ensures p[i] != p[j] { assert s[i] != s[j]; }
    forall i, j | 0 <= i < j < |q| ensures q[i] != q[j] { assert s[|p| + i] != s[|p| + j]; }
    forall i, j | 0 <= i < |p| && 0 <= j < |q| ensures p[i] != q[j] { assert s[i] != s[|p| + j]; }
  }

  lemma HasInConcat(p: seq<string>, q: seq<string>, x: string)
    ensures Has(p + q, x) <==> Has(p, x) || Has(q, x)
  {
    var s := p + q;
    if Has(p, x) { var i :| 0 <= i < |p| && p[i] == x; assert s[i] == x; }
    if Has(q, x) { var j :| 0 <= j < |q| && q[j] == x; assert s[|p| + j] == x; }
    if Has(s, x) {
      var i :| 0 <= i < |s| && s[i] == x;
      assert if i < |p| then p[i] == x else q[i - |p|] == x;
    }
  }

  /** The names above a level of more than one node are the names of the tree above it. */
  lemma NamesUp(h: Hash, l: seq<seq<byte>>)
    requires |l| > 1
    ensures Names(h, l) == Hexes(l) + Names(h, Up(h, l))
  {
    assert Hexes(AllNodes(h, Up(h, l))) == Names(h, Up(h, l));
  }

  lemma AboveUp(h: Hash, l: seq<seq<byte>>, x: string)
    requires |l| > 1
    ensures Has(Hexes(Above(h, l)), x) <==> Has(Hexes(Up(h, l)), x) || Has(Hexes(Above(h, Up(h, l))), x)
  {
    var u := Up(h, l);
    assert Hexes(Above(h, l)) == Hexes(u) + Hexes(Above(h, u));
    HasInConcat(Hexes(u), Hexes(Above(h, u)), x);
  }

  /** A parent is above its children's level. */
  lemma {:induction false} ParentsAreAbove(h: Hash, l: seq<seq<byte>>, q: string, cs: seq<string>)
    requires l != [] && HasChildren(h, l, q, cs)
    ensures Has(Hexes(Above(h, l)), q)
    decreases |l|
  {
    if |l| == 1 {
      assert Hexes(Above(h, l))[0] == q;
    } else {
      var u := Up(h, l);
      AboveUp(h, l, q);
      if InLevel(h, l, q, cs) {
        var i: nat :| i < |u| && IsNode(h, l, i, q, cs);
        assert Hexes(u)[i] == q;
      } else {
        ParentsAreAbove(h, u, q, cs);
      }
    }
  }

  lemma ChildInLevel(h: Hash, l: seq<seq<byte>>, i: nat, q: string, cs: seq<string>, k: nat)
    requires i < |Up(h, l)| && IsNode(h, l, i, q, cs) && k < |cs|
    ensures WIDTH * i + k < |l| && cs[k] == Hexes(l)[WIDTH * i + k] && k < WIDTH
  {
    assert Chunk(l, i)[k] == l[WIDTH * i + k];
  }

  /** A child is in its level or above. */
  lemma {:induction false} ChildrenAreNodes(h: Hash, l: seq<seq<byte>>, q: string, cs: seq<string>, c: string)
    requires l != [] && HasChildren(h, l, q, cs) && Has(cs, c)
    ensures |l| > 1 && !InLevel(h, l, q, cs) ==> Has(Names(h, Up(h, l)), c)
    ensures |l| == 1 || InLevel(h, l, q, cs) ==> Has(Hexes(l), c)
    ensures Has(Names(h, l), c)
    decreases |l|
  {
    HasInConcat(Hexes(l), Hexes(Above(h, l)), c);
    if |l| <= 1 {
    } else {
      if InLevel(h, l, q, cs) {
        var i: nat :| i < |Up(h, l)| && IsNode(h, l, i, q, cs);
        var k :| 0 <= k < |cs| && cs[k] == c;
        ChildInLevel(h, l, i, q, cs, k);
      } else {
        NamesUp(h, l);
        HasInConcat(Hexes(l), Names(h, Up(h, l)), c);
        ChildrenAreNodes(h, Up(h, l), q, cs, c);
      }
    }
  }

  lemma SameNode(h: Hash, l: seq<seq<byte>>, i: nat, cs: seq<string>, i': nat, cs': seq<string>, c: string)
    requires Distinct(Hexes(l)) && i < |Up(h, l)| && i' < |Up(h, l)|
    requires IsNode(h, l, i, ToHex(Up(h, l)[i]), cs) && IsNode(h, l, i', ToHex(Up(h, l)[i']), cs')
    requires Has(cs, c) && Has(cs', c)
    ensures i == i'
  {
    var k :| 0 <= k < |cs| && cs[k] == c;
    var k' :| 0 <= k' < |cs'| && cs'[k'] == c;
    ChildInLevel(h, l, i, ToHex(Up(h, l)[i]), cs, k);
    ChildInLevel(h, l, i', ToHex(Up(h, l)[i']), cs', k');
    var n, n' := WIDTH * i + k, WIDTH * i' + k';
    assert Hexes(l)[n] == Hexes(l)[n'];
    assert n == n';
  }

  lemma SameChunk(h: Hash, l: seq<seq<byte>>, q: string, cs: seq<string>, q': string, cs': seq<string>, c: string)
    requires Distinct(Hexes(l)) && InLevel(h, l, q, cs) && InLevel(h, l, q', cs') && Has(cs, c) && Has(cs', c)
    ensures q == q' && cs == cs'
  {
    var i: nat :| i < |Up(h, l)| && IsNode(h, l, i, q, cs);
    var i': nat :| i' < |Up(h, l)| && IsNode(h, l, i', q', cs');
    SameNode(h, l, i, cs, i', cs', c);
  }

  /** With distinct nodes, a child has one parent. */
  lemma {:induction false} ParentUnique(h: Hash, l: seq<seq<byte>>, q: string, cs: seq<string>,
                                        q': string, cs': seq<string>, c: string)
    requires l != [] && Distinct(Names(h, l))
    requires HasChildren(h, l, q, cs) && HasChildren(h, l, q', cs') && Has(cs, c) && Has(cs', c)
    ensures q == q' && cs == cs'
    decreases |l|
  {
    if |l| <= 1 {
    } else {
      NamesUp(h, l);
      DistinctParts(Hexes(l), Names(h, Up(h, l)), c);
      ChildrenAreNodes(h, l, q, cs, c);
      ChildrenAreNodes(h, l, q', cs', c);
      if InLevel(h, l, q, cs) {
        SameChunk(h, l, q, cs, q', cs', c);
      } else {
        ParentUnique(h, Up(h, l), q, cs, q', cs', c);
      }
    }
  }
}
