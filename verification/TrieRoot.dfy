/** rlp256, hash256 and orderedTrieRoot of libdevcore/TrieHash.cpp: the root of a map, and of a list. */
module TrieRoot {
  import opened Prelude
  import opened Bytes
  import opened Rlp
  import opened RlpReader
  import opened RlpStream
  import opened TrieCommon
  import opened Trie
  import opened TrieLookup
  import opened TrieHash

  type BytesMap = map<seq<byte>, seq<byte>>

  predicate Fits(m: BytesMap) {
    forall k :: k in m ==> 2 * |k| < MAX_KEY && |m[k]| < MAX_VALUE
  }

  function Find(m: BytesMap, k: seq<byte>): Option<seq<byte>> {
    if k in m then Some(m[k]) else None
  }

  /** The entries are a map from byte strings to byte strings. */
  ghost predicate Pictures(es: seq<Entry>, m: BytesMap) {
    forall k: seq<byte> :: Get(es, Nibbles(k)) == Find(m, k)
  }

  lemma {:induction false} LessTransitive(a: seq<nibble>, b: seq<nibble>, c: seq<nibble>)
    requires Less(a, b) && Less(b, c)
    ensures Less(a, c)
  {
    if a != [] && a[0] == b[0] && b[0] == c[0] { LessTransitive(a[1..], b[1..], c[1..]); }
  }

  lemma {:induction false} LessIsTotal(a: seq<nibble>, b: seq<nibble>)
    ensures a == b || Less(a, b) || Less(b, a)
    ensures !(Less(a, b) && Less(b, a)) && !Less(a, a)
  {
    if a == [] {
    } else {
      LessIsTotal(a[1..], a[1..]);
      if b != [] && a[0] == b[0] {
        LessIsTotal(a[1..], b[1..]);
        assert a == [a[0]] + a[1..] && b == [b[0]] + b[1..];
      }
    }
  }

  /** hexMap[e.key] = e.value on a std::map. */
  function Insert(es: seq<Entry>, e: Entry): seq<Entry> {
    if es == [] || Less(e.key, es[0].key) then [e] + es
    else if e.key == es[0].key then [e] + es[1..]
    else [es[0]] + Insert(es[1..], e)
  }

  /** The first key is below the keys of all entries, or there are none. */
  ghost predicate Below(k: seq<nibble>, es: seq<Entry>) {
    forall i :: 0 <= i < |es| ==> Less(k, es[i].key)
  }

  lemma SortedCons(e: Entry, es: seq<Entry>)
    ensures Sorted([e] + es) <==> Below(e.key, es) && Sorted(es)
  {
    var r := [e] + es;
    if Sorted(r) {
      forall i | 0 <= i < |es| ensures Less(e.key, es[i].key) { assert Less(r[0].key, r[i + 1].key); }
      forall i, j | 0 <= i < j < |es| ensures Less(es[i].key, es[j].key) { assert Less(r[i + 1].key, r[j + 1].key); }
    }
  }

  lemma {:induction false} InsertBelow(k: seq<nibble>, es: seq<Entry>, e: Entry)
    requires Below(k, es) && Less(k, e.key)
    ensures Below(k, Insert(es, e))
  {
    if es != [] && !Less(e.key, es[0].key) && e.key != es[0].key { InsertBelow(k, es[1..], e); }
  }

  lemma {:induction false} InsertSorted(es: seq<Entry>, e: Entry)
    requires Sorted(es)
    ensures Sorted(Insert(es, e))
  {
    if es == [] {
      SortedCons(e, es);
    } else {
      assert es == [es[0]] + es[1..];
      SortedCons(es[0], es[1..]);
      LessIsTotal(e.key, es[0].key);
      if Less(e.key, es[0].key) {
        forall i | 0 <= i < |es| ensures Less(e.key, es[i].key) {
          if i > 0 { assert Less(es[0].key, es[1..][i - 1].key); LessTransitive(e.key, es[0].key, es[i].key); }
        }
        SortedCons(e, es);
      } else if e.key == es[0].key {
        SortedCons(e, es[1..]);
      } else {
        InsertSorted(es[1..], e);
        InsertBelow(es[0].key, es[1..], e);
        SortedCons(es[0], Insert(es[1..], e));
      }
    }
  }

  lemma {:induction false} InsertGets(es: seq<Entry>, e: Entry, key: seq<nibble>)
    requires Sorted(es)
    ensures Get(Insert(es, e), key) == if key == e.key then Some(e.value) else Get(es, key)
  {
    if es != [] && !Less(e.key, es[0].key) && e.key != es[0].key {
      assert es == [es[0]] + es[1..];
      SortedCons(es[0], es[1..]);
      InsertGets(es[1..], e, key);
      assert Insert(es, e)[1..] == Insert(es[1..], e);
    } else if es == [] || Less(e.key, es[0].key) {
      assert Insert(es, e)[1..] == es;
    } else {
      assert Insert(es, e)[1..] == es[1..];
    }
  }

  /** All keys are keys of whole bytes. */
  ghost predicate WholeBytes(es: seq<Entry>) {
    forall i :: 0 <= i < |es| ==> |es[i].key| % 2 == 0
  }

  lemma {:induction false} InsertWholeBytes(es: seq<Entry>, e: Entry)
    requires WholeBytes(es) && |e.key| % 2 == 0
    ensures WholeBytes(Insert(es, e))
  {
    if es != [] && !Less(e.key, es[0].key) && e.key != es[0].key { InsertWholeBytes(es[1..], e); }
  }

  /** The sorted entries of a map. */
  ghost predicate EntriesOf(es: seq<Entry>, m: BytesMap) {
    Sorted(es) && Pictures(es, m) && WholeBytes(es)
  }

  lemma InsertEntry(es: seq<Entry>, m: BytesMap, k: seq<byte>, v: seq<byte>)
    requires EntriesOf(es, m)
    ensures EntriesOf(Insert(es, Entry(Nibbles(k), v)), m[k := v])
  {
    var e := Entry(Nibbles(k), v);
    InsertSorted(es, e);
    InsertWholeBytes(es, e);
    forall x: seq<byte> ensures Get(Insert(es, e), Nibbles(x)) == Find(m[k := v], x) {
      InsertGets(es, e, Nibbles(x));
      PackOfNibbles(x);
      PackOfNibbles(k);
    }
  }

  lemma {:induction false} GetAt(es: seq<Entry>, i: nat)
    requires Sorted(es) && i < |es|
    ensures Get(es, es[i].key) == Some(es[i].value)
  {
    if i == 0 {
    } else {
      assert Less(es[0].key, es[i].key);
      LessIsTotal(es[0].key, es[i].key);
      assert es == [es[0]] + es[1..];
      SortedCons(es[0], es[1..]);
      GetAt(es[1..], i - 1);
    }
  }

  /** Every entry stands for a key of the map. */
  lemma EntryIsPair(es: seq<Entry>, m: BytesMap, i: nat)
    requires EntriesOf(es, m) && i < |es|
    ensures var k := Pack(es[i].key); Nibbles(k) == es[i].key && k in m && m[k] == es[i].value
  {
    GetAt(es, i);
    NibblesOfPack(es[i].key);
  }

  lemma EntriesFit(es: seq<Entry>, m: BytesMap)
    requires EntriesOf(es, m)
    ensures Fits(m) ==> Bounded(es)
  {
    forall i | 0 <= i < |es| && Fits(m) ensures |es[i].key| < MAX_KEY && |es[i].value| < MAX_VALUE {
      EntryIsPair(es, m, i);
    }
  }

  lemma {:induction false} GetBelow(es: seq<Entry>, k: seq<nibble>)
    requires Below(k, es)
    ensures Get(es, k) == None
  {
    GetNone(es, k);
    forall i | 0 <= i < |es| ensures es[i].key != k { LessIsTotal(k, es[i].key); }
  }

  /** Sorted entries with the same pairs are the same entries. */
  lemma {:induction false} SortedUnique(es: seq<Entry>, fs: seq<Entry>)
    requires Sorted(es) && Sorted(fs) && forall k :: Get(es, k) == Get(fs, k)
    ensures es == fs
  {
    assert es != [] ==> Get(es, es[0].key) == Get(fs, es[0].key);
    assert fs != [] ==> Get(es, fs[0].key) == Get(fs, fs[0].key);
    if es != [] && fs != [] {
      var a, b := es[0], fs[0];
      assert es == [a] + es[1..] && fs == [b] + fs[1..];
      SortedCons(a, es[1..]);
      SortedCons(b, fs[1..]);
      NotBelow(es, b.key);
      NotBelow(fs, a.key);
      LessIsTotal(a.key, b.key);
      forall k ensures Get(es[1..], k) == Get(fs[1..], k) {
        if k == a.key { GetBelow(es[1..], k); GetBelow(fs[1..], k); }
        assert Get(es, k) == Get(fs, k);
      }
      SortedUnique(es[1..], fs[1..]);
    }
  }

  lemma NotBelow(es: seq<Entry>, k: seq<nibble>)
    requires Sorted(es) && es != [] && Get(es, k).Some?
    ensures !Less(k, es[0].key)
  {
    if Less(k, es[0].key) { BelowAll(k, es); GetBelow(es, k); }
  }

  lemma BelowAll(k: seq<nibble>, es: seq<Entry>)
    requires Sorted(es) && es != [] && Less(k, es[0].key)
    ensures Below(k, es)
  {
    forall i | 0 <= i < |es| ensures Less(k, es[i].key) {
      if i > 0 { assert Less(es[0].key, es[i].key); LessTransitive(k, es[0].key, es[i].key); }
    }
  }

  /** A map has one list of sorted entries. */
  lemma EntriesUnique(es: seq<Entry>, fs: seq<Entry>, m: BytesMap)
    requires EntriesOf(es, m) && EntriesOf(fs, m)
    ensures es == fs
  {
    forall k ensures Get(es, k) == Get(fs, k) {
      if |k| % 2 == 0 {
        NibblesOfPack(k);
        assert Get(es, Nibbles(Pack(k))) == Get(fs, Nibbles(Pack(k)));
      } else {
        GetNone(es, k);
        GetNone(fs, k);
      }
    }
    SortedUnique(es, fs);
  }

  lemma WholeIsPart(es: seq<Entry>)
    ensures Agree(es, 0, |es|, 0) && Part(es, 0, |es|, 0) == es
  {
    assert forall i :: 0 <= i < |es| ==> es[i].key[0..] == es[i].key;
  }

  /** The loop that fills hexMap. */
  method SortedEntries(s: BytesMap) returns (es: seq<Entry>)
    ensures EntriesOf(es, s)
  {
    es := [];
    var todo := s.Keys;
    ghost var done: BytesMap := map[];
    while todo != {}
      invariant todo <= s.Keys && done == map k | k in s && k !in todo :: s[k]
      invariant EntriesOf(es, done)
    {
      var k :| k in todo;
      var ns := AsNibbles(k);
      InsertEntry(es, done, k, s[k]);
      es := Insert(es, Entry(ns, s[k]));
      todo, done := todo - {k}, done[k := s[k]];
    }
    assert done == s;
  }

  /** The bytes are the encoding of the root node of the map. */
  ghost predicate IsTreeOf(h: Hash, s: BytesMap, out: seq<byte>) {
    exists es :: EntriesOf(es, s) && Bounded(es) && Encode(Node(h, es)) == Some(out)
  }

  /** The map is what the entries say, and its tree is theirs. */
  lemma TreeOfEntries(h: Hash, s: BytesMap, es: seq<Entry>, out: seq<byte>)
    requires Is256(h) && EntriesOf(es, s) && Bounded(es)
    ensures IsTreeOf(h, s, out) <==> Encode(Node(h, es)) == Some(out)
  {
    if IsTreeOf(h, s, out) {
      var fs :| EntriesOf(fs, s) && Bounded(fs) && Encode(Node(h, fs)) == Some(out);
      EntriesUnique(es, fs, s);
    }
  }

  /** rlp256: sorts the map and writes its tree. */
  method Rlp256(h: Hash, s: BytesMap) returns (out: seq<byte>)
    requires Is256(h) && Fits(s)
    ensures IsTreeOf(h, s, out)
  {
    var stream := new RLPStream();
    if s == map[] {
      var r := stream.Append([], false);
      out := stream.out;
      assert out == [] + Encode(Data([])).value == Encode(Data([])).value;
      assert EntriesOf([], s) && Node(h, []) == Data([]);
      return;
    }
    var hexMap := SortedEntries(s);
    EntriesFit(hexMap, s);
    WholeIsPart(hexMap);
    Hash256Rlp(h, hexMap, 0, |hexMap|, 0, stream);
    out := stream.out;
  }

  /** hash256 of a map. */
  method Hash256(h: Hash, s: BytesMap) returns (root: seq<byte>)
    requires Is256(h) && Fits(s)
    ensures exists out :: IsTreeOf(h, s, out) && root == h(out)
  {
    var out := Rlp256(h, s);
    root := h(out);
  }

  /** rlp(j) for an unsigned j: the key of element j of a list. */
  function IndexKey(j: nat): seq<byte> {
    match Encode(Data(BigEndian(j)))
    case None => []
    case Some(e) => e
  }

  const UNSIGNED: nat := 0x1_0000_0000

  lemma IndexKeyIsShort(j: nat)
    requires j < UNSIGNED
    ensures Sound(Data(BigEndian(j))) && |IndexKey(j)| <= 13
  {
    BigEndianLength(j, 4);
    DataSize(BigEndian(j));
  }

  lemma IndexKeyInjective(i: nat, j: nat)
    requires i < UNSIGNED && j < UNSIGNED && IndexKey(i) == IndexKey(j)
    ensures i == j
  {
    IndexKeyIsShort(i);
    IndexKeyIsShort(j);
    EncodeInjective(Data(BigEndian(i)), Data(BigEndian(j)));
    FromToBigEndian(i);
    FromToBigEndian(j);
  }

  /** The key of element j is the integer j, as the strict reader reads it. */
  lemma IndexKeyIsRlp(j: nat)
    requires j < 0x1_0000_0000
    ensures OpenStrict(IndexKey(j)).None? && ToInt(IndexKey(j), 4) == Ok(j)
  {
    IndexKeyIsShort(j);
    BigEndianLength(j, 4);
    DecodeIsInverse(IndexKey(j), Data(BigEndian(j)));
    ToIntExact(IndexKey(j), 4, j);
  }

  /** The bytes of that key. */
  lemma IndexKeyBytes(j: nat)
    requires j < 0x1_0000_0000
    ensures j == 0 ==> IndexKey(j) == [0x80]
    ensures 0 < j < 0x80 ==> IndexKey(j) == [j]
    ensures 0x80 <= j < 0x100 ==> IndexKey(j) == [0x81, j]
    ensures 0x100 <= j ==> IndexKey(j) == [0x80 + |BigEndian(j)|] + BigEndian(j) && 2 <= |BigEndian(j)| <= 4
  {
    BigEndianLength(j, 4);
    BigEndianLength(j, 1);
    BigEndianByte(j);
    IndexKeyOf(j, BigEndian(j));
  }

  lemma IndexKeyOf(j: nat, be: seq<byte>)
    requires be == BigEndian(j) && |be| <= 4
    ensures IndexKey(j) == if |be| == 1 && be[0] < 0x80 then be else [0x80 + |be|] + be
  {
    StringBytes(be);
  }

  lemma BigEndianByte(j: nat)
    ensures j == 0 ==> BigEndian(j) == []
    ensures 0 < j < 0x100 ==> BigEndian(j) == [j]
  {
    if 0 < j < 0x100 { assert j / 0x100 == 0 && j % 0x100 == j; }
  }

  /** The map from the keys of the indices to the elements of a list. */
  function IndexMap(data: seq<seq<byte>>): BytesMap {
    if data == [] then map[]
    else IndexMap(data[..|data| - 1])[IndexKey(|data| - 1) := data[|data| - 1]]
  }

  lemma {:induction false} IndexMapGets(data: seq<seq<byte>>, j: nat)
    requires |data| < UNSIGNED && j < UNSIGNED
    ensures IndexKey(j) in IndexMap(data) <==> j < |data|
    ensures j < |data| ==> IndexMap(data)[IndexKey(j)] == data[j]
  {
    if data == [] {
    } else {
      var front := data[..|data| - 1];
      IndexMapGets(front, j);
      if IndexKey(j) == IndexKey(|front|) { IndexKeyInjective(j, |front|); }
      assert IndexMap(data) == IndexMap(front)[IndexKey(|front|) := data[|front|]];
    }
  }

  lemma {:induction false} IndexMapFits(data: seq<seq<byte>>)
    requires |data| < UNSIGNED && forall j :: 0 <= j < |data| ==> |data[j]| < MAX_VALUE
    ensures Fits(IndexMap(data))
  {
    if data == [] {
    } else {
      IndexMapFits(data[..|data| - 1]);
      IndexKeyIsShort(|data| - 1);
    }
  }

  /** rlp(j), through a stream of its own. */
  method RlpOfInt(j: nat) returns (out: seq<byte>)
    requires j < UNSIGNED
    ensures out == IndexKey(j)
  {
    var stream := new RLPStream();
    IndexKeyIsShort(j);
    var r := stream.AppendInt(j);
    out := stream.out;
    assert out == [] + IndexKey(j);
  }

  /** orderedTrieRoot. */
  method OrderedTrieRoot(h: Hash, data: seq<seq<byte>>) returns (root: seq<byte>)
    requires Is256(h) && |data| < UNSIGNED && forall j :: 0 <= j < |data| ==> |data[j]| < MAX_VALUE
    ensures exists out :: IsTreeOf(h, IndexMap(data), out) && root == h(out)
  {
    var m: BytesMap := map[];
    for j := 0 to |data|
      invariant m == IndexMap(data[..j])
    {
      var key := RlpOfInt(j);
      assert data[..j + 1][..j] == data[..j];
      m := m[key := data[j]];
    }
    assert data[..|data|] == data;
    IndexMapFits(data);
    root := Hash256(h, m);
  }
}
