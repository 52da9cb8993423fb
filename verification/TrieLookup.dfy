/** Every key that is looked up in the tree of some entries is found as they say, except for an empty value where other
    keys go on. */
module TrieLookup {
  import opened Prelude
  import opened Bytes
  import opened Rlp
  import opened RlpReader
  import opened TrieCommon
  import opened Trie

  const MAX_VALUE: nat := 0x4000_0000_0000_0000
  const MAX_KEY: nat := 0x8000_0000

  /** Key lengths fit in the int arguments of the source, and values are shorter than 2^62 bytes. */
  predicate Bounded(es: seq<Entry>) {
    forall i :: 0 <= i < |es| ==> |es[i].key| < MAX_KEY && |es[i].value| < MAX_VALUE
  }

  /** The bounds in numbers: keys below 2^31 nibbles, values below 2^62 bytes. */
  lemma BoundsInNumbers(es: seq<Entry>)
    ensures Bounded(es) <==>
      forall i :: 0 <= i < |es| ==> |es[i].key| < 0x8000_0000 && |es[i].value| < 0x4000_0000_0000_0000
  {
  }

  /** No two entries have the same key. */
  predicate DistinctKeys(es: seq<Entry>) {
    forall i, j :: 0 <= i < j < |es| ==> es[i].key != es[j].key
  }

  /** Some key starts with p. */
  predicate Continues(es: seq<Entry>, p: seq<nibble>) {
    es != [] && (p <= es[0].key || Continues(es[1..], p))
  }

  /** Keys go on after k; for a sharp reader, in two ways at least. */
  ghost predicate Forks(es: seq<Entry>, k: seq<nibble>, sharp: bool) {
    exists a: nibble, b: nibble :: Continues(es, k + [a]) && Continues(es, k + [b]) && (sharp ==> a != b)
  }

  /** What a reader of the tree can know about k: an empty value is not seen where the tree forks. */
  ghost function Seen(es: seq<Entry>, k: seq<nibble>, sharp: bool): Option<seq<byte>> {
    if Get(es, k) == Some([]) && Forks(es, k, sharp) then None else Get(es, k)
  }

  lemma {:induction false} ContinuesAt(es: seq<Entry>, p: seq<nibble>)
    ensures Continues(es, p) <==> exists i :: 0 <= i < |es| && p <= es[i].key
  {
    if es == [] {
    } else {
      ContinuesAt(es[1..], p);
      assert forall i :: 0 <= i < |es| - 1 ==> es[1..][i] == es[i + 1];
      assert forall i :: 0 < i < |es| ==> es[i] == es[1..][i - 1];
    }
  }

  lemma {:induction false} GetNone(es: seq<Entry>, key: seq<nibble>)
    ensures Get(es, key) == None <==> forall i :: 0 <= i < |es| ==> es[i].key != key
  {
    if es == [] {
    } else {
      GetNone(es[1..], key);
      assert forall i :: 0 < i < |es| ==> es[i] == es[1..][i - 1];
      assert forall i :: 0 <= i < |es| - 1 ==> es[1..][i] == es[i + 1];
    }
  }

  lemma {:induction false} GetOfGroup(es: seq<Entry>, d: nibble, key: seq<nibble>)
    ensures Get(Group(es, d), key) == Get(es, [d] + key)
  {
    if es == [] {
    } else {
      GetOfGroup(es[1..], d, key);
      var k := es[0].key;
      if k != [] && k[0] == d {
        assert k == [d] + k[1..];
        assert ([d] + key)[1..] == key;
        assert Group(es, d)[1..] == Group(es[1..], d);
      }
    }
  }

  lemma {:induction false} GetOfStrip(es: seq<Entry>, p: seq<nibble>, key: seq<nibble>)
    requires forall i :: 0 <= i < |es| ==> p <= es[i].key
    ensures p <= key ==> Get(Strip(es, |p|), key[|p|..]) == Get(es, key)
    ensures !(p <= key) ==> Get(es, key) == None
  {
    if es == [] {
    } else {
      GetOfStrip(es[1..], p, key);
      assert Strip(es, |p|)[1..] == Strip(es[1..], |p|);
      assert es[0].key == p + es[0].key[|p|..];
      if p <= key { assert key == p + key[|p|..]; }
    }
  }

  lemma {:induction false} ContinuesGroup(es: seq<Entry>, d: nibble, p: seq<nibble>)
    ensures Continues(Group(es, d), p) <==> Continues(es, [d] + p)
  {
    if es == [] {
    } else {
      ContinuesGroup(es[1..], d, p);
      var k := es[0].key;
      if k != [] && k[0] == d {
        assert k == [d] + k[1..] && ([d] + p)[1..] == p;
        assert Group(es, d)[1..] == Group(es[1..], d);
        if [d] + p <= k { assert p == k[1..][..|p|]; }
      }
    }
  }

  lemma {:induction false} ContinuesStrip(es: seq<Entry>, p: seq<nibble>, q: seq<nibble>)
    requires forall i :: 0 <= i < |es| ==> p <= es[i].key
    ensures Continues(Strip(es, |p|), q) <==> Continues(es, p + q)
  {
    if es == [] {
    } else {
      ContinuesStrip(es[1..], p, q);
      var k := es[0].key;
      assert Strip(es, |p|)[1..] == Strip(es[1..], |p|);
      assert k == p + k[|p|..] && (p + q)[|p|..] == q;
      if p + q <= k { assert q == k[|p|..][..|q|]; }
    }
  }

  lemma SeenInGroup(es: seq<Entry>, d: nibble, key: seq<nibble>, sharp: bool)
    ensures Seen(Group(es, d), key, sharp) == Seen(es, [d] + key, sharp)
  {
    GetOfGroup(es, d, key);
    forall a: nibble ensures Continues(Group(es, d), key + [a]) <==> Continues(es, ([d] + key) + [a]) {
      ContinuesGroup(es, d, key + [a]);
      assert ([d] + key) + [a] == [d] + (key + [a]);
    }
  }

  lemma SeenInStrip(es: seq<Entry>, p: seq<nibble>, key: seq<nibble>, sharp: bool)
    requires forall i :: 0 <= i < |es| ==> p <= es[i].key
    ensures Seen(Strip(es, |p|), key, sharp) == Seen(es, p + key, sharp)
  {
    GetOfStrip(es, p, p + key);
    assert (p + key)[|p|..] == key;
    forall a: nibble ensures Continues(Strip(es, |p|), key + [a]) <==> Continues(es, (p + key) + [a]) {
      ContinuesStrip(es, p, key + [a]);
      assert (p + key) + [a] == p + (key + [a]);
    }
  }

  lemma {:induction false} GroupIsPart(es: seq<Entry>, d: nibble)
    ensures Bounded(es) ==> Bounded(Group(es, d))
  {
    if es == [] {
    } else {
      GroupIsPart(es[1..], d);
    }
  }

  lemma {:induction false} GroupIsDistinct(es: seq<Entry>, d: nibble)
    requires DistinctKeys(es)
    ensures DistinctKeys(Group(es, d))
  {
    if es == [] {
    } else {
      var g, k := Group(es[1..], d), es[0].key;
      assert forall i :: 0 <= i < |es| - 1 ==> es[1..][i] == es[i + 1];
      GroupIsDistinct(es[1..], d);
      if k != [] && k[0] == d {
        assert k == [d] + k[1..];
        GetNone(es[1..], k);
        GetOfGroup(es[1..], d, k[1..]);
        GetNone(g, k[1..]);
      }
    }
  }

  lemma StripIsDistinct(es: seq<Entry>, p: seq<nibble>)
    requires DistinctKeys(es) && forall i :: 0 <= i < |es| ==> p <= es[i].key
    ensures DistinctKeys(Strip(es, |p|))
  {
    var s := Strip(es, |p|);
    forall i, j | 0 <= i < j < |s| ensures s[i].key != s[j].key {
      assert es[i].key == p + s[i].key && es[j].key == p + s[j].key;
    }
  }

  lemma {:induction false} GetIsPart(es: seq<Entry>, key: seq<nibble>)
    ensures Get(es, key).Some? && Bounded(es) ==> |Get(es, key).value| < MAX_VALUE
  {
    if es == [] {
    } else {
      GetIsPart(es[1..], key);
    }
  }

  lemma {:induction false} SharedAtLeast(es: seq<Entry>, p: seq<nibble>)
    requires es != [] && forall i :: 0 <= i < |es| ==> p <= es[i].key
    ensures |p| <= Shared(es)
  {
    if |es| <= 1 {
    } else {
      SharedAtLeast(es[..|es| - 1], p);
      CommonAtLeast(es[0].key, es[|es| - 1].key, p);
    }
  }

  lemma CommonAtLeast(a: seq<nibble>, b: seq<nibble>, p: seq<nibble>)
    requires p <= a && p <= b
    ensures |p| <= Common(a, b)
  {
    OrderAt(a, b, |p|);
  }

  /** A branch has a child, and without a value it has two. */
  lemma BranchForks(es: seq<Entry>)
    requires DistinctKeys(es) && |es| > 1 && Shared(es) == 0
    ensures Forks(es, [], false)
    ensures Get(es, []) == None ==> Forks(es, [], true)
  {
    var i := if es[0].key != [] then 0 else 1;
    var a := es[i].key[0];
    KeyContinues(es, i);
    assert Continues(es, [] + [a]);
    if Get(es, []) == None {
      GetNone(es, []);
      if forall j :: 0 <= j < |es| ==> [a] <= es[j].key {
        SharedAtLeast(es, [a]);
      } else {
        var j :| 0 <= j < |es| && !([a] <= es[j].key);
        KeyContinues(es, j);
        assert Continues(es, [] + [es[j].key[0]]);
      }
    }
  }

  lemma KeyContinues(es: seq<Entry>, i: nat)
    requires i < |es| && es[i].key != []
    ensures [] + [es[i].key[0]] == [es[i].key[0]] && Continues(es, [es[i].key[0]])
  {
    ContinuesAt(es, [es[i].key[0]]);
  }

  lemma DataSize(bs: seq<byte>)
    requires |bs| < SIZE_LIMIT
    ensures var e := Encode(Data(bs)); e.Some? && |e.value| <= |bs| + 9
  {
    HeaderExists(DATA_IMM_LEN_START, |bs|);
  }

  lemma ListSize(items: seq<Item>)
    requires EncodeAll(items).Some? && |EncodeAll(items).value| < LENGTH_LIMIT
    requires forall k :: 0 <= k < |items| ==> Readable(items[k])
    ensures Encode(List(items)).Some? && Readable(List(items))
  {
    HeaderExists(LIST_START, |EncodeAll(items).value|);
  }

  /** Nodes can be encoded and read back: none is too long. */
  predicate Sound(i: Item) {
    Encode(i).Some? && Readable(i)
  }

  lemma RefSize(h: Hash, i: Item)
    requires Is256(h) && Sound(i)
    ensures Small(Ref(h, i))
  {
    var e := Encode(i).value;
    if |e| >= 32 { DataSize(h(e)); assert |h(e)| == 32; }
  }

  lemma PairSound(ns: seq<nibble>, leaf: bool, other: Item)
    requires |ns| < MAX_KEY && Sound(other) && |Encode(other).value| <= MAX_VALUE + 9
    ensures Sound(List([Data(HexPrefix(ns, leaf)), other]))
  {
    var key := Data(HexPrefix(ns, leaf));
    HexPrefixSize(ns, leaf);
    DataSize(key.bytes);
    assert [key, other][..0] == [] && [key, other][1..] == [other] && [other][1..] == [];
    assert EncodeAll([other]) == Some(Encode(other).value + []);
    ListSize([key, other]);
  }

  lemma BranchSound(children: seq<Item>, v: seq<byte>)
    requires |children| == 16 && (forall c :: c in children ==> Small(c)) && |v| < MAX_VALUE
    ensures Sound(List(children + [Data(v)]))
  {
    EncodeAllSize(children);
    DataSize(v);
    EncodeAllAppend(children, Data(v));
    assert forall k :: 0 <= k < 16 ==> Small(children[k]);
    ListSize(children + [Data(v)]);
  }

  /** Every node can be encoded and read back. */
  lemma {:induction false} NodeSound(h: Hash, es: seq<Entry>)
    requires Is256(h) && Bounded(es)
    ensures Sound(Node(h, es))
    decreases Size(es), 1
  {
    if |es| == 1 {
      DataSize(es[0].value);
      PairSound(es[0].key, true, Data(es[0].value));
    } else if es != [] {
      var s := Shared(es);
      if s > 0 {
        SharedIsPrefix(es);
        SizeOfStrip(es, s);
        NodeSound(h, Strip(es, s));
        RefSize(h, Node(h, Strip(es, s)));
        PairSound(es[0].key[..s], false, Ref(h, Node(h, Strip(es, s))));
      } else {
        ChildrenSound(h, es);
        GetIsPart(es, []);
        BranchSound(Children(h, es), Here(es));
      }
    }
  }

  lemma {:induction false} ChildrenSound(h: Hash, es: seq<Entry>)
    requires Is256(h) && Bounded(es)
    ensures forall c :: c in Children(h, es) ==> Small(c)
    decreases Size(es), 0
  {
    forall d: nibble ensures Small(Children(h, es)[d]) {
      var g := Group(es, d);
      GroupIsPart(es, d);
      if g != [] { NodeSound(h, g); RefSize(h, Node(h, g)); }
    }
  }

  predicate Small(i: Item) {
    Sound(i) && |Encode(i).value| <= 33
  }

  lemma {:induction false} EncodeAllSize(items: seq<Item>)
    requires forall c :: c in items ==> Small(c)
    ensures EncodeAll(items).Some? && |EncodeAll(items).value| <= 33 * |items|
  {
    if items == [] {
    } else {
      assert Small(items[0]); EncodeAllSize(items[1..]);
    }
  }

  lemma {:induction false} HexPrefixSize(ns: seq<nibble>, leaf: bool)
    ensures |HexPrefix(ns, leaf)| <= |ns| + 2
  {
    PackSize(Flag(|ns| % 2 == 1, leaf) + ns);
  }

  lemma {:induction false} PackSize(ns: seq<nibble>)
    ensures |Pack(ns)| <= |ns|
  {
    if |ns| <= 1 {
    } else {
      PackSize(ns[2..]);
    }
  }

  /** A reference resolves to the node it was made from. */
  lemma ResolveRef(h: Hash, db: Database, es: seq<Entry>)
    requires Is256(h) && Bounded(es) && es != [] && Stores(h, db, EmittedFrom(h, es))
    ensures Resolve(db, Ref(h, Node(h, es))) == Node(h, es)
    ensures Stores(h, db, Emitted(h, es))
  {
    NodeSound(h, es);
    DecodeEncoded(Node(h, es));
    var e := Encode(Node(h, es)).value;
    assert |e| >= 32 ==> |h(e)| == 32 && e in EmittedFrom(h, es);
  }

  /** Looking a key up in the nodes of some entries finds what can be seen of them. */
  lemma {:induction false} LookupFinds(h: Hash, db: Database, es: seq<Entry>, key: seq<nibble>, sharp: bool)
    requires Is256(h) && Bounded(es) && DistinctKeys(es) && Stores(h, db, Emitted(h, es))
    ensures Lookup(db, Node(h, es), key, sharp) == Seen(es, key, sharp)
    decreases Size(es)
  {
    if |es| == 1 {
      HexPrefixDecodes(es[0].key, true);
      SeenOfOne(es, key, sharp);
    } else if es != [] {
      if Shared(es) > 0 {
        ExtensionFinds(h, db, es, key, sharp);
      } else {
        BranchFinds(h, db, es, key, sharp);
      }
    }
  }

  lemma SeenOfOne(es: seq<Entry>, key: seq<nibble>, sharp: bool)
    requires |es| == 1
    ensures Seen(es, key, sharp) == if key == es[0].key then Some(es[0].value) else None
  {
    assert es[1..] == [];
    assert Get(es[1..], key) == None;
    forall a: nibble | key == es[0].key ensures !Continues(es, key + [a]) {
      assert |key + [a]| > |es[0].key| && !Continues(es[1..], key + [a]);
    }
    assert key == es[0].key ==> !Forks(es, key, sharp);
  }

  lemma LookupExtension(db: Database, p: seq<nibble>, child: Item, key: seq<nibble>, sharp: bool)
    requires p != []
    ensures Lookup(db, List([Data(HexPrefix(p, false)), child]), key, sharp) ==
            if p <= key then Lookup(db, Resolve(db, child), key[|p|..], sharp) else None
  {
    HexPrefixDecodes(p, false);
  }

  lemma {:induction false} ExtensionFinds(h: Hash, db: Database, es: seq<Entry>, key: seq<nibble>, sharp: bool)
    requires Is256(h) && Bounded(es) && DistinctKeys(es) && Stores(h, db, Emitted(h, es))
    requires |es| > 1 && Shared(es) > 0
    ensures Lookup(db, Node(h, es), key, sharp) == Seen(es, key, sharp)
    decreases Size(es), 0, 1
  {
    SharedIsPrefix(es);
    var p, rest := es[0].key[..Shared(es)], Strip(es, Shared(es));
    SizeOfStrip(es, Shared(es));
    LookupExtension(db, p, Ref(h, Node(h, rest)), key, sharp);
    ResolveRef(h, db, rest);
    SeenBehind(es, p, key, sharp);
    StripIsDistinct(es, p);
    if p <= key { LookupFinds(h, db, rest, key[|p|..], sharp); }
  }

  lemma SeenBehind(es: seq<Entry>, p: seq<nibble>, key: seq<nibble>, sharp: bool)
    requires forall i :: 0 <= i < |es| ==> p <= es[i].key
    ensures Seen(es, key, sharp) == if p <= key then Seen(Strip(es, |p|), key[|p|..], sharp) else None
  {
    GetOfStrip(es, p, key);
    if p <= key {
      assert key == p + key[|p|..];
      SeenInStrip(es, p, key[|p|..], sharp);
    }
  }

  lemma LookupBranch(db: Database, children: seq<Item>, v: seq<byte>, key: seq<nibble>, sharp: bool)
    requires |children| == 16
    ensures Lookup(db, List(children + [Data(v)]), key, sharp) ==
            if key != [] then Lookup(db, Resolve(db, children[key[0]]), key[1..], sharp)
            else if v != [] || (sharp && OneChild(children + [Data(v)])) then Some(v) else None
  {
    var items := children + [Data(v)];
    assert |items| == 17 && items[16] == Data(v);
    if key != [] { assert items[key[0]] == children[key[0]]; }
  }

  lemma {:induction false} BranchFinds(h: Hash, db: Database, es: seq<Entry>, key: seq<nibble>, sharp: bool)
    requires Is256(h) && Bounded(es) && DistinctKeys(es) && Stores(h, db, Emitted(h, es))
    requires |es| > 1 && Shared(es) == 0
    ensures Lookup(db, Node(h, es), key, sharp) == Seen(es, key, sharp)
    decreases Size(es), 0, 1
  {
    LookupBranch(db, Children(h, es), Here(es), key, sharp);
    if key == [] {
      BranchForks(es);
      OneChildIsNoFork(h, es);
    } else {
      forall e | Group(es, key[0]) != [] && e in EmittedFrom(h, Group(es, key[0]))
        ensures h(e) in db && db[h(e)] == e
      {
        assert e in Emitted(h, es);
      }
      ChildFinds(h, db, es, key, sharp);
    }
  }

  /** A slot is used exactly when a key goes on there. */
  lemma SlotIsUsed(h: Hash, es: seq<Entry>, d: nibble)
    requires Is256(h) && Bounded(es)
    ensures Children(h, es)[d] != Data([]) <==> Continues(es, [] + [d])
  {
    ContinuesGroup(es, d, []);
    assert [d] + [] == [] + [d];
    var g := Group(es, d);
    if g != [] {
      GroupIsPart(es, d);
      NodeSound(h, g);
      RefIsNotEmpty(h, Node(h, g));
    }
  }

  lemma RefIsNotEmpty(h: Hash, i: Item)
    requires Is256(h) && i.List? && Encode(i).Some?
    ensures Ref(h, i) != Data([])
  {
    assert |h(Encode(i).value)| == 32;
  }

  lemma OneChildIsNoFork(h: Hash, es: seq<Entry>)
    requires Is256(h) && Bounded(es)
    ensures OneChild(Children(h, es) + [Data(Here(es))]) <==> !Forks(es, [], true)
  {
    var c := Children(h, es);
    var items := c + [Data(Here(es))];
    forall d: nibble ensures items[d] != Data([]) <==> Continues(es, [] + [d]) { SlotIsUsed(h, es, d); }
  }

  lemma {:induction false} ChildFinds(h: Hash, db: Database, es: seq<Entry>, key: seq<nibble>, sharp: bool)
    requires Is256(h) && Bounded(es) && DistinctKeys(es) && key != []
    requires var g := Group(es, key[0]); g != [] ==> Stores(h, db, EmittedFrom(h, g))
    ensures Lookup(db, Resolve(db, Children(h, es)[key[0]]), key[1..], sharp) == Seen(es, key, sharp)
    decreases Size(es), 0, 0
  {
    var g := Group(es, key[0]);
    SeenInGroup(es, key[0], key[1..], sharp);
    assert key == [key[0]] + key[1..];
    if g != [] {
      GroupIsPart(es, key[0]);
      GroupIsDistinct(es, key[0]);
      ResolveRef(h, db, g);
      LookupFinds(h, db, g, key[1..], sharp);
    }
  }

  /** No two of the strings have the same hash. */
  ghost predicate NoCollision(h: Hash, s: set<seq<byte>>) {
    forall a, b :: a in s && b in s && h(a) == h(b) ==> a == b
  }

  /** Everything that is hashed for a map: the root node and the nodes below it. */
  ghost function Hashed(h: Hash, es: seq<Entry>): set<seq<byte>>
    requires Is256(h) && Bounded(es)
  {
    NodeSound(h, es);
    Emitted(h, es) + {Encode(Node(h, es)).value}
  }

  /** hash256 of the entries. */
  function Root(h: Hash, es: seq<Entry>): seq<byte>
    requires Encode(Node(h, es)).Some?
  {
    h(Encode(Node(h, es)).value)
  }

  /** The same from the root hash on. */
  lemma RootLookup(h: Hash, db: Database, es: seq<Entry>, key: seq<nibble>, sharp: bool)
    requires Is256(h) && Bounded(es) && DistinctKeys(es) && Stores(h, db, Hashed(h, es))
    ensures Sound(Node(h, es)) && LookupRoot(db, Root(h, es), key, sharp) == Seen(es, key, sharp)
  {
    NodeSound(h, es);
    DecodeEncoded(Node(h, es));
    assert Resolve(db, Data(Root(h, es))) == Node(h, es) by {
      assert |Root(h, es)| == 32 && Encode(Node(h, es)).value in Hashed(h, es);
    }
    LookupFinds(h, db, es, key, sharp);
  }

  /** Without collisions there is a database for any set of nodes. */
  lemma DatabaseExists(h: Hash, s: set<seq<byte>>) returns (db: Database)
    requires NoCollision(h, s)
    ensures Stores(h, db, s)
  {
    db := map e | e in s :: h(e) := e;
  }
}
