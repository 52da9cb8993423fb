/** The 16-ary Merkle tree (libdevcore/TrieHash2.cpp): its root, and the map from parents to children. */
module Merkle {
  import opened Prelude
  import opened Bytes
  import opened Trie

  const WIDTH: nat := 16

  /** The children of node i of the next level. */
  function Chunk(l: seq<seq<byte>>, i: nat): (c: seq<seq<byte>>)
    requires WIDTH * i < |l|
    ensures 0 < |c| <= WIDTH
  {
    if WIDTH * i + WIDTH <= |l| then l[WIDTH * i..WIDTH * i + WIDTH] else l[WIDTH * i..]
  }

  function Concat(l: seq<seq<byte>>): seq<byte> {
    if l == [] then [] else l[0] + Concat(l[1..])
  }

  /** The next level. */
  function Up(h: Hash, l: seq<seq<byte>>): (u: seq<seq<byte>>)
    ensures |u| == (|l| + WIDTH - 1) / WIDTH
    ensures |l| > 1 ==> 0 < |u| < |l|
  {
    seq((|l| + WIDTH - 1) / WIDTH, i requires 0 <= i < (|l| + WIDTH - 1) / WIDTH => h(Concat(Chunk(l, i))))
  }

  /** The root: the hash of the only node of the last level. */
  function MerkleRoot(h: Hash, l: seq<seq<byte>>): seq<byte>
    decreases |l|
  {
    if l == [] then h([])
    else if |l| == 1 then h(l[0])
    else MerkleRoot(h, Up(h, l))
  }

  /** The values of all nodes: the leaves, the levels above them, and the root. */
  function AllNodes(h: Hash, l: seq<seq<byte>>): seq<seq<byte>>
    requires l != []
    decreases |l|, 1
  {
    l + Above(h, l)
  }

  /** The nodes above a level. */
  function Above(h: Hash, l: seq<seq<byte>>): (a: seq<seq<byte>>)
    requires l != []
    ensures a != []
    decreases |l|, 0
  {
    if |l| == 1 then [h(l[0])] else AllNodes(h, Up(h, l))
  }

  function HexDigit(n: int): (c: char)
    requires 0 <= n < 16
    ensures HexValue(c) == n
  {
    "0123456789abcdef"[n]
  }

  function HexValue(c: char): (n: int)
    ensures 0 <= n < 16
  {
    if '0' <= c <= '9' then c as int - '0' as int
    else if 'a' <= c <= 'f' then c as int - 'a' as int + 10
    else 0
  }

  /** toHex. */
  function ToHex(d: seq<byte>): (s: string)
    ensures |s| == 2 * |d|
  {
    if d == [] then "" else [HexDigit(d[0] / 16), HexDigit(d[0] % 16)] + ToHex(d[1..])
  }

  /** The bytes that a hex string stands for. */
  function FromHex(s: string): seq<byte> {
    if |s| < 2 then [] else [HexValue(s[0]) * 16 + HexValue(s[1])] + FromHex(s[2..])
  }

  lemma {:induction false} FromToHex(d: seq<byte>)
    ensures FromHex(ToHex(d)) == d
  {
    if d == [] {
    } else {
      var s := ToHex(d);
      FromToHex(d[1..]);
      assert s[2..] == ToHex(d[1..]);
      assert HexValue(s[0]) * 16 + HexValue(s[1]) == d[0];
    }
  }

  function Hexes(l: seq<seq<byte>>): (r: seq<string>)
    ensures |r| == |l| && forall i :: 0 <= i < |l| ==> r[i] == ToHex(l[i])
  {
    seq(|l|, i requires 0 <= i < |l| => ToHex(l[i]))
  }

  lemma {:induction false} ConcatMore(l: seq<seq<byte>>, x: seq<byte>)
    ensures Concat(l + [x]) == Concat(l) + x
  {
    if l == [] {
      assert l + [x] == [x] && [x][1..] == [];
    } else {
      ConcatMore(l[1..], x);
      assert (l + [x])[1..] == l[1..] + [x];
    }
  }

  lemma {:induction false} ConcatJoins(a: seq<seq<byte>>, b: seq<seq<byte>>)
    ensures Concat(a + b) == Concat(a) + Concat(b)
    ensures a != [] ==> Concat(a) == a[0] + Concat(a[1..])
  {
    if a == [] {
      assert a + b == b && [] + Concat(b) == Concat(b);
    } else {
      ConcatJoins(a[1..], b);
      assert (a + b)[1..] == a[1..] + b;
      assert a[0] + (Concat(a[1..]) + Concat(b)) == a[0] + Concat(a[1..]) + Concat(b);
    }
  }

  /** Node i of the next level hashes the nodes 16 * i to 16 * i + 15 of this one, or as many of them as there are. */
  lemma SixteenChildren(h: Hash, l: seq<seq<byte>>, i: nat)
    requires 16 * i < |l|
    ensures |Up(h, l)| == (|l| + 15) / 16 && i < |Up(h, l)|
    ensures Up(h, l)[i] == h(Concat(if 16 * i + 16 <= |l| then l[16 * i..16 * i + 16] else l[16 * i..]))
  {
    assert Chunk(l, i) == if 16 * i + 16 <= |l| then l[16 * i..16 * i + 16] else l[16 * i..];
  }

  /** Up to 16 leaves have one parent. */
  lemma RootOfFew(h: Hash, l: seq<seq<byte>>)
    requires 2 <= |l| <= 16
    ensures MerkleRoot(h, l) == h(h(Concat(l)))
  {
    SixteenChildren(h, l, 0);
    assert l[0..16 * 0 + |l|] == l && l[0..] == l;
    assert |Up(h, l)| == 1;
  }

  /** Seventeen leaves have two. */
  lemma RootOfSeventeen(h: Hash, l: seq<seq<byte>>)
    requires |l| == 17
    ensures MerkleRoot(h, l) == h(h(h(Concat(l[0..16])) + h(l[16])))
  {
    SixteenChildren(h, l, 0);
    SixteenChildren(h, l, 1);
    var u := Up(h, l);
    assert l[16..] == [l[16]] && Concat([l[16]]) == l[16] + Concat([]) == l[16];
    assert u == [h(Concat(l[0..16])), h(l[16])];
    assert u[1..] == [u[1]] && Concat([u[1]]) == u[1] + Concat([]) == u[1];
    RootOfFew(h, u);
  }

  /** The digits of a byte. */
  lemma {:induction false} HexDigits(d: seq<byte>, i: nat)
    requires i < |d|
    ensures ToHex(d)[2 * i] == "0123456789abcdef"[d[i] / 16] && ToHex(d)[2 * i + 1] == "0123456789abcdef"[d[i] % 16]
  {
    if i > 0 { HexDigits(d[1..], i - 1); }
  }

  /** The bytes that node i of the next level hashes. */
  method Join(l: seq<seq<byte>>, i: nat) returns (b: seq<byte>, children: seq<seq<byte>>)
    requires WIDTH * i < |l|
    ensures children == Chunk(l, i) && b == Concat(children)
  {
    b, children := [], [];
    for j := 0 to WIDTH
      invariant WIDTH * i + j <= |l| ==> children == l[WIDTH * i..WIDTH * i + j]
      invariant WIDTH * i + j > |l| ==> children == l[WIDTH * i..]
      invariant b == Concat(children)
    {
      var index := WIDTH * i + j;
      if index < |l| {
        ConcatMore(children, l[index]);
        b := b + l[index];
        children := children + [l[index]];
      }
    }
  }

  /** getHash256. The nodes of a level are computed in any order. */
  method GetHash256(h: Hash, leaves: seq<seq<byte>>) returns (root: seq<byte>)
    ensures root == MerkleRoot(h, leaves)
  {
    if leaves == [] { return h([]); }
    var level := leaves;
    while |level| > 1
      invariant level != [] && MerkleRoot(h, level) == MerkleRoot(h, leaves)
      decreases |level|
    {
      var size := (|level| + WIDTH - 1) / WIDTH;
      var higher: seq<seq<byte>> := seq(size, _ => []);
      var todo := Indices(size);
      while todo != {}
        invariant |higher| == size && forall i :: i in todo ==> 0 <= i < size
        invariant forall i :: 0 <= i < size && i !in todo ==> higher[i] == Up(h, level)[i]
      {
        var i :| i in todo;
        var b, _ := Join(level, i);
        higher := higher[i := h(b)];
        todo := todo - {i};
      }
      assert higher == Up(h, level);
      level := higher;
    }
    return h(level[0]);
  }
}
