/** Trees of small maps, byte by byte (libdevcore/TrieHash.cpp). */
module TrieExamples {
  import opened Prelude
  import opened Bytes
  import opened Rlp
  import opened TrieCommon
  import opened Trie
  import opened TrieLookup
  import opened TrieRoot

  lemma TwoItems(i: Item, j: Item, a: seq<byte>, b: seq<byte>)
    requires Encode(i) == Some(a) && Encode(j) == Some(b) && |a| + |b| <= 55
    ensures Encode(List([i, j])) == Some([0xc0 + |a| + |b|] + a + b)
  {
    assert [i, j][1..] == [j] && [j][1..] == [];
    assert EncodeAll([j]) == Some(b + []) && b + [] == b;
    assert EncodeAll([i, j]) == Some(a + b);
    ListBytes([i, j], a + b);
    assert [0xc0 + |a + b|] + (a + b) == [0xc0 + |a| + |b|] + a + b;
  }

  /** The tree of the empty map is the empty string. */
  lemma NoElement(h: Hash)
    ensures IsTreeOf(h, map[], [0x80])
  {
    var none: BytesMap := map[];
    assert EntriesOf([], none);
    StringBytes([]);
    assert [0x80 + 0] + [] == [0x80];
  }

  /** The tree of the list with the one element "a": a leaf with the key 0x80. */
  lemma OneElement(h: Hash)
    ensures IsTreeOf(h, IndexMap([[0x61]]), [0xc4, 0x82, 0x20, 0x80, 0x61])
  {
    var data: seq<seq<byte>> := [[0x61]];
    var key: seq<byte>, hp: seq<byte> := [0x80], [0x20, 0x80];
    OneKey(data, key);
    var e := Entry([8, 0], [0x61]);
    TwoNibbles(8, 0, true);
    StringBytes(hp);
    StringBytes([0x61]);
    TwoItems(Data(hp), Data([0x61]), [0x82] + hp, [0x61]);
    assert [0xc0 + 3 + 1] + ([0x82] + hp) + [0x61] == [0xc4, 0x82, 0x20, 0x80, 0x61];
    assert Node(h, [e]) == List([Data(hp), Data([0x61])]);
  }

  lemma OneKey(data: seq<seq<byte>>, key: seq<byte>)
    requires data == [[0x61]] && key == [0x80]
    ensures EntriesOf([Entry([8, 0], [0x61])], IndexMap(data)) && Bounded([Entry([8, 0], [0x61])])
  {
    IndexKeyBytes(0);
    assert data[..0] == [] && IndexMap(data) == map[][key := data[0]];
    var none: BytesMap := map[];
    assert EntriesOf([], none);
    InsertEntry([], none, key, data[0]);
    assert key[1..] == [] && Nibbles(key) == [8, 0];
  }

  function Blank(n: nat): seq<Item> {
    seq(n, _ => Data([]))
  }

  function Nulls(n: nat): seq<byte> {
    seq(n, _ => 0x80)
  }

  /** Empty slots. */
  lemma {:induction false} Blanks(n: nat)
    ensures EncodeAll(Blank(n)) == Some(Nulls(n))
  {
    if n == 0 {
    } else {
      Blanks(n - 1);
      assert Blank(n) == Blank(n - 1) + [Data([])] && Nulls(n) == Nulls(n - 1) + [0x80];
      EncodeAllAppend(Blank(n - 1), Data([]));
      StringBytes([]);
      assert [0x80 + 0] + [] == [0x80];
    }
  }

  lemma {:induction false} EncodeAllConcat(a: seq<Item>, b: seq<Item>, p: seq<byte>, q: seq<byte>)
    requires EncodeAll(a) == Some(p) && EncodeAll(b) == Some(q)
    ensures EncodeAll(a + b) == Some(p + q)
  {
    if a == [] {
      assert a + b == b && [] + q == q;
    } else {
      var x, rest := Encode(a[0]).value, EncodeAll(a[1..]).value;
      EncodeAllConcat(a[1..], b, rest, q);
      assert (a + b)[1..] == a[1..] + b && (a + b)[0] == a[0];
      assert x + (rest + q) == p + q;
    }
  }

  /** A leaf with one nibble of key and a value of one small byte. */
  lemma LeafBytes(h: Hash, es: seq<Entry>, n: nibble, v: byte)
    requires es == [Entry([n], [v])] && v < 0x80
    ensures Encode(Node(h, es)) == Some([0xc2, 0x30 + n as int, v])
  {
    HexPrefixBytes([n], true);
    var hp: seq<byte> := [0x30 + n as int];
    assert HexPrefix([n], true) == hp;
    StringBytes(hp);
    StringBytes([v]);
    TwoItems(Data(hp), Data([v]), hp, [v]);
    assert [0xc0 + 1 + 1] + hp + [v] == [0xc2, 0x30 + n as int, v];
  }

  /** The two keys 0x1234 and 0x1256: an extension 1, 2, and behind it a branch with leaves at 3 and 5. */
  lemma TwoKeys(h: Hash, es: seq<Entry>)
    requires es == [Entry([1, 2, 3, 4], [0x61]), Entry([1, 2, 5, 6], [0x62])]
    ensures Encode(Node(h, es)) ==
      Some([0xd9, 0x82, 0x00, 0x12] +
           ([0xd5, 0x80, 0x80, 0x80, 0xc2, 0x34, 0x61, 0x80, 0xc2, 0x36, 0x62] + Nulls(11)))
  {
    var below := [Entry([3, 4], [0x61]), Entry([5, 6], [0x62])];
    BranchBytes(h, below);
    BehindExtension(h, es, below, Encode(Node(h, below)).value);
  }

  lemma BehindExtension(h: Hash, es: seq<Entry>, below: seq<Entry>, branch: seq<byte>)
    requires es == [Entry([1, 2, 3, 4], [0x61]), Entry([1, 2, 5, 6], [0x62])]
    requires below == [Entry([3, 4], [0x61]), Entry([5, 6], [0x62])]
    requires Node(h, below).List? && Encode(Node(h, below)) == Some(branch) && |branch| == 22
    ensures Encode(Node(h, es)) == Some([0xd9, 0x82, 0x00, 0x12] + branch)
  {
    var hp: seq<byte> := [0x00, 0x12];
    ExtensionIs(h, es, below, hp);
    ExtensionBytes(hp, Node(h, below), branch);
  }

  lemma ExtensionBytes(hp: seq<byte>, i: Item, branch: seq<byte>)
    requires hp == [0x00, 0x12] && Encode(i) == Some(branch) && |branch| == 22
    ensures Encode(List([Data(hp), i])) == Some([0xd9, 0x82, 0x00, 0x12] + branch)
  {
    StringBytes(hp);
    TwoItems(Data(hp), i, [0x82] + hp, branch);
    assert [0xc0 + 3 + 22] + ([0x82] + hp) + branch == [0xd9, 0x82, 0x00, 0x12] + branch;
  }

  lemma ExtensionIs(h: Hash, es: seq<Entry>, below: seq<Entry>, hp: seq<byte>)
    requires es == [Entry([1, 2, 3, 4], [0x61]), Entry([1, 2, 5, 6], [0x62])]
    requires below == [Entry([3, 4], [0x61]), Entry([5, 6], [0x62])] && hp == [0x00, 0x12]
    requires Node(h, below).List? && Encode(Node(h, below)).Some? && |Encode(Node(h, below)).value| == 22
    ensures Node(h, es) == List([Data(hp), Node(h, below)])
  {
    TwoShared(es);
    SharedIsPrefix(es);
    assert Strip(es, 2) == below;
    assert es[0].key[..2] == [1, 2];
    TwoNibbles(1, 2, false);
  }

  lemma TwoNibbles(a: nibble, b: nibble, leaf: bool)
    ensures HexPrefix([a, b], leaf) == [if leaf then 0x20 else 0, (a as int) * 16 + b as int]
  {
    HexPrefixBytes([a, b], leaf);
    var r := HexPrefix([a, b], leaf);
    assert r[0 + 1] == ([a, b][2 * 0 + 0] as int) * 16 + [a, b][2 * 0 + 0 + 1] as int;
  }

  lemma TwoShared(es: seq<Entry>)
    requires es == [Entry([1, 2, 3, 4], [0x61]), Entry([1, 2, 5, 6], [0x62])]
    ensures Shared(es) == 2
  {
    CommonEnds(es[0].key, es[1].key, 2);
    assert es[..1] == [es[0]];
  }

  /** Fourteen empty slots, the two leaves, and no value. */
  function Slots(a: Item, b: Item): seq<Item> {
    Blank(3) + [a] + Blank(1) + [b] + Blank(11)
  }

  lemma BranchBytes(h: Hash, es: seq<Entry>)
    requires es == [Entry([3, 4], [0x61]), Entry([5, 6], [0x62])]
    ensures Node(h, es).List? && Encode(Node(h, es)) ==
      Some([0xd5, 0x80, 0x80, 0x80, 0xc2, 0x34, 0x61, 0x80, 0xc2, 0x36, 0x62] + Nulls(11))
  {
    var four, six := [Entry([4], [0x61])], [Entry([6], [0x62])];
    LeafBytes(h, four, 4, 0x61);
    LeafBytes(h, six, 6, 0x62);
    BranchSlots(h, es, four, six);
    SlotBytes(Node(h, four), Node(h, six));
  }

  lemma SlotBytes(a: Item, b: Item)
    requires Encode(a) == Some([0xc2, 0x34, 0x61]) && Encode(b) == Some([0xc2, 0x36, 0x62])
    ensures Encode(List(Slots(a, b))) ==
      Some([0xd5, 0x80, 0x80, 0x80, 0xc2, 0x34, 0x61, 0x80, 0xc2, 0x36, 0x62] + Nulls(11))
  {
    var p: seq<byte> := [0x80, 0x80, 0x80, 0xc2, 0x34, 0x61, 0x80, 0xc2, 0x36, 0x62] + Nulls(11);
    SlotPayload(a, b, p);
    Wrapped(Slots(a, b), p);
    assert [0xd5] + p == [0xd5, 0x80, 0x80, 0x80, 0xc2, 0x34, 0x61, 0x80, 0xc2, 0x36, 0x62] + Nulls(11);
  }

  lemma Wrapped(items: seq<Item>, p: seq<byte>)
    requires EncodeAll(items) == Some(p) && |p| == 21
    ensures Encode(List(items)) == Some([0xd5] + p)
  {
    ListBytes(items, p);
  }

  lemma SlotPayload(a: Item, b: Item, p: seq<byte>)
    requires Encode(a) == Some([0xc2, 0x34, 0x61]) && Encode(b) == Some([0xc2, 0x36, 0x62])
    requires p == [0x80, 0x80, 0x80, 0xc2, 0x34, 0x61, 0x80, 0xc2, 0x36, 0x62] + Nulls(11)
    ensures EncodeAll(Slots(a, b)) == Some(p)
  {
    var k: nat, m: nat, n: nat := 3, 1, 11;
    FrontBytes(k, a, m, b, Encode(a).value, Encode(b).value);
    var front := Blank(k) + [a] + Blank(m) + [b];
    Blanks(n);
    EncodeAllConcat(front, Blank(n), EncodeAll(front).value, Nulls(n));
    assert p == Nulls(k) + [0xc2, 0x34, 0x61] + Nulls(m) + [0xc2, 0x36, 0x62] + Nulls(n);
  }

  lemma FrontBytes(k: nat, a: Item, m: nat, b: Item, x: seq<byte>, y: seq<byte>)
    requires Encode(a) == Some(x) && Encode(b) == Some(y)
    ensures EncodeAll(Blank(k) + [a] + Blank(m) + [b]) == Some(Nulls(k) + x + Nulls(m) + y)
  {
    Blanks(k);
    Blanks(m);
    EncodeAllAppend(Blank(k), a);
    EncodeAllConcat(Blank(k) + [a], Blank(m), Nulls(k) + x, Nulls(m));
    EncodeAllAppend(Blank(k) + [a] + Blank(m), b);
  }

  lemma BranchSlots(h: Hash, es: seq<Entry>, four: seq<Entry>, six: seq<Entry>)
    requires es == [Entry([3, 4], [0x61]), Entry([5, 6], [0x62])]
    requires four == [Entry([4], [0x61])] && six == [Entry([6], [0x62])]
    requires Encode(Node(h, four)) == Some([0xc2, 0x34, 0x61]) && Encode(Node(h, six)) == Some([0xc2, 0x36, 0x62])
    ensures Node(h, es) == List(Slots(Node(h, four), Node(h, six)))
  {
    BranchShape(es);
    var c, a, b := Children(h, es), Node(h, four), Node(h, six);
    forall d: nibble ensures c[d] == if d == 3 then a else if d == 5 then b else Data([]) {
      SlotIs(h, es, d, four, six);
    }
    assert c + [Data([])] == Slots(a, b);
  }

  lemma BranchShape(es: seq<Entry>)
    requires es == [Entry([3, 4], [0x61]), Entry([5, 6], [0x62])]
    ensures Shared(es) == 0 && Here(es) == []
  {
    CommonEnds(es[0].key, es[1].key, 0);
    assert es[..1] == [es[0]] && es[1..] == [es[1]];
    assert [es[1]][1..] == [] && es[1].key != [] && es[0].key != [];
    assert Get([es[1]], []) == None;
  }

  lemma SlotIs(h: Hash, es: seq<Entry>, d: nibble, four: seq<Entry>, six: seq<Entry>)
    requires es == [Entry([3, 4], [0x61]), Entry([5, 6], [0x62])]
    requires four == [Entry([4], [0x61])] && six == [Entry([6], [0x62])]
    ensures Group(es, d) == if d == 3 then four else if d == 5 then six else []
  {
    assert es[1..] == [es[1]] && [es[1]][1..] == [];
    assert es[0].key[1..] == [4] && es[1].key[1..] == [6];
    assert Group([es[1]], d) == if d == 5 then six + [] else [];
  }
}
