/** The Merkle Patricia tree of libdevcore/TrieHash.cpp (Appendix D of the Ethereum Yellow Paper): the node of
    a set of entries, the nodes that are referred to by hash, and looking a key up in those nodes. */
module Trie {
  import opened Prelude
  import opened Bytes
  import opened Rlp
  import opened RlpReader
  import opened TrieCommon

  datatype Entry = Entry(key: seq<nibble>, value: seq<byte>)

  type Hash = seq<byte> -> seq<byte>

  /** The hash has 32 bytes. */
  ghost predicate Is256(h: Hash) {
    forall x :: |h(x)| == 32
  }

  function Size(es: seq<Entry>): nat {
    if es == [] then 0 else |es[0].key| + Size(es[1..])
  }

  /** How many nibbles all keys share at the front. */
  function Shared(es: seq<Entry>): nat
    requires es != []
  {
    if |es| == 1 then |es[0].key|
    else
      var m, c := Shared(es[..|es| - 1]), Common(es[0].key, es[|es| - 1].key);
      if m < c then m else c
  }

  lemma {:induction false} SharedIsPrefix(es: seq<Entry>)
    requires es != []
    ensures Shared(es) <= |es[0].key| && forall i :: 0 <= i < |es| ==> es[0].key[..Shared(es)] <= es[i].key
  {
    if |es| <= 1 {
    } else {
      var front, n := es[..|es| - 1], Shared(es);
      SharedIsPrefix(front);
      forall i | 0 <= i < |es| ensures es[0].key[..n] <= es[i].key {
        var k := if i < |front| then Shared(front) else Common(es[0].key, es[i].key);
        assert i < |front| ==> front[i] == es[i];
        assert es[0].key[..k] <= es[i].key;
        assert es[0].key[..n] == es[0].key[..k][..n];
      }
    }
  }

  /** The entries without the first n nibbles of their keys. */
  function Strip(es: seq<Entry>, n: nat): (r: seq<Entry>)
    requires forall i :: 0 <= i < |es| ==> n <= |es[i].key|
    ensures |r| == |es| && forall i :: 0 <= i < |es| ==> r[i] == Entry(es[i].key[n..], es[i].value)
  {
    seq(|es|, i requires 0 <= i < |es| => Entry(es[i].key[n..], es[i].value))
  }

  /** The entries whose key starts with d, without that nibble. */
  function Group(es: seq<Entry>, d: nibble): (g: seq<Entry>)
    ensures Size(g) + |g| <= Size(es)
  {
    if es == [] then []
    else if es[0].key != [] && es[0].key[0] == d then [Entry(es[0].key[1..], es[0].value)] + Group(es[1..], d)
    else Group(es[1..], d)
  }

  function Get(es: seq<Entry>, key: seq<nibble>): Option<seq<byte>> {
    if es == [] then None
    else if es[0].key == key then Some(es[0].value)
    else Get(es[1..], key)
  }

  lemma {:induction false} SizeOfStrip(es: seq<Entry>, n: nat)
    requires forall i :: 0 <= i < |es| ==> n <= |es[i].key|
    ensures Size(Strip(es, n)) <= Size(es)
    ensures n > 0 && es != [] ==> Size(Strip(es, n)) < Size(es)
  {
    if es == [] {
    } else {
      SizeOfStrip(es[1..], n);
      assert Strip(es, n)[1..] == Strip(es[1..], n);
    }
  }

  /** The node for a set of entries, with keys relative to the place of the node in the tree. */
  function Node(h: Hash, es: seq<Entry>): (i: Item)
    ensures es != [] ==> i.List?
    decreases Size(es), 1
  {
    if es == [] then Data([])
    else if |es| == 1 then List([Data(HexPrefix(es[0].key, true)), Data(es[0].value)])
    else
      var s := Shared(es);
      if s > 0 then
        SharedIsPrefix(es);
        SizeOfStrip(es, s);
        List([Data(HexPrefix(es[0].key[..s], false)), Ref(h, Node(h, Strip(es, s)))])
      else
        List(Children(h, es) + [Data(Here(es))])
  }

  /** The child slots of a branch node. */
  function Children(h: Hash, es: seq<Entry>): (r: seq<Item>)
    ensures |r| == 16
    decreases Size(es), 0
  {
    seq(16, d requires 0 <= d < 16 =>
      var g := Group(es, d);
      if g == [] then Data([]) else Ref(h, Node(h, g)))
  }

  /** The value slot of a branch node. */
  function Here(es: seq<Entry>): seq<byte> {
    match Get(es, [])
    case None => []
    case Some(v) => v
  }

  /** How a node stands in its parent: itself when that takes less than 32 bytes, or else its hash. */
  function Ref(h: Hash, i: Item): Item {
    match Encode(i)
    case None => Data([])
    case Some(e) => if |e| < 32 then i else Data(h(e))
  }

  /** The encodings of the nodes below the node of the entries that are referred to by hash. */
  ghost function Emitted(h: Hash, es: seq<Entry>): set<seq<byte>>
    decreases Size(es), 1
  {
    if |es| <= 1 then {}
    else
      var s := Shared(es);
      if s > 0 then
        SharedIsPrefix(es);
        SizeOfStrip(es, s);
        EmittedFrom(h, Strip(es, s))
      else set d: nibble, e | Group(es, d) != [] && e in EmittedFrom(h, Group(es, d)) :: e
  }

  /** The same, with the node itself if it is referred to by hash. */
  ghost function EmittedFrom(h: Hash, es: seq<Entry>): set<seq<byte>>
    decreases Size(es), 2
  {
    var e := Encode(Node(h, es));
    Emitted(h, es) + if e.Some? && |e.value| >= 32 then {e.value} else {}
  }

  /** Hashes and what was hashed. */
  type Database = map<seq<byte>, seq<byte>>

  ghost predicate Stores(h: Hash, db: Database, nodes: set<seq<byte>>) {
    forall e :: e in nodes ==> h(e) in db && db[h(e)] == e
  }

  /** The node that an item of a parent stands for. */
  function Resolve(db: Database, i: Item): Item {
    match i
    case List(_) => i
    case Data(bs) => if |bs| == 32 && bs in db && Decode(db[bs]).Ok? then Decode(db[bs]).value else Data([])
  }

  /** At most one child slot of a branch node is used. */
  predicate OneChild(items: seq<Item>)
    requires |items| == 17
  {
    forall a, b :: 0 <= a < b < 16 ==> items[a] == Data([]) || items[b] == Data([])
  }

  /** Follows a key from a node on. An empty value slot means that there is no value. A sharp reader makes an exception
      at a branch with a single child: without a value there, the two nodes would have been one. */
  function Lookup(db: Database, i: Item, key: seq<nibble>, sharp: bool): Option<seq<byte>>
    decreases |key|
  {
    if i.List? && |i.items| == 2 && i.items[0].Data? && i.items[0].bytes != [] then
      var hp, p := i.items[0].bytes, KeyOf(i.items[0].bytes);
      if IsLeaf(hp) then
        if p == key && i.items[1].Data? then Some(i.items[1].bytes) else None
      else if p != [] && p <= key then Lookup(db, Resolve(db, i.items[1]), key[|p|..], sharp)
      else None
    else if i.List? && |i.items| == 17 then
      if key != [] then Lookup(db, Resolve(db, i.items[key[0]]), key[1..], sharp)
      else if i.items[16].Data? && (i.items[16].bytes != [] || (sharp && OneChild(i.items)))
      then Some(i.items[16].bytes)
      else None
    else None
  }

  /** Follows a key from the root hash on. */
  function LookupRoot(db: Database, root: seq<byte>, key: seq<nibble>, sharp: bool): Option<seq<byte>> {
    Lookup(db, Resolve(db, Data(root)), key, sharp)
  }

  /** A node stands in its parent itself when its encoding is below 32 bytes, and otherwise as the hash of it. */
  lemma StandsBelow32(h: Hash, i: Item, e: seq<byte>)
    requires Encode(i) == Some(e)
    ensures Ref(h, i) == if |e| <= 31 then i else Data(h(e))
  {
  }
}
