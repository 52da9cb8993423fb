/** What the root of a map says about the map: an empty value is hidden where other keys go on, and nothing else is. */
module TrieMaps {
  import opened Prelude
  import opened Bytes
  import opened Rlp
  import opened RlpReader
  import opened TrieCommon
  import opened Trie
  import opened TrieLookup
  import opened TrieHash
  import opened TrieRoot
  import opened TrieView

  /** Keys go on after k; for a sharp reader, with two different nibbles at least. */
  ghost predicate Hides(m: BytesMap, k: seq<byte>, sharp: bool) {
    exists x, y :: x in m && y in m && k < x && k < y && (sharp ==> x[|k|] / 16 != y[|k|] / 16)
  }

  /** What a reader of the tree sees of the map: not the empty values of keys after which others go on. */
  ghost function Visible(m: BytesMap, sharp: bool): BytesMap {
    map k | k in m && !(m[k] == [] && Hides(m, k, sharp)) :: m[k]
  }

  ghost predicate AllVisible(m: BytesMap, sharp: bool) {
    forall k :: k in m && m[k] == [] ==> !Hides(m, k, sharp)
  }

  lemma {:induction false} NibblesAhead(k: seq<byte>, x: seq<byte>, a: nibble)
    ensures Nibbles(k) + [a] <= Nibbles(x) <==> k < x && x[|k|] / 16 == a
  {
    if k == [] {
      assert Nibbles(k) + [a] == [a];
      if x != [] { assert Nibbles(x)[0] == x[0] / 16; }
    } else if x != [] {
      NibblesAhead(k[1..], x[1..], a);
      SameFront([k[0] / 16, k[0] % 16], Nibbles(k[1..]) + [a], [x[0] / 16, x[0] % 16], Nibbles(x[1..]));
      assert Nibbles(k) + [a] == [k[0] / 16, k[0] % 16] + (Nibbles(k[1..]) + [a]);
      SameFront(k[..1], k[1..], x[..1], x[1..]);
      assert k == k[..1] + k[1..] && x == x[..1] + x[1..];
    }
  }

  lemma SameFront<T(!new)>(a: seq<T>, b: seq<T>, c: seq<T>, d: seq<T>)
    requires |a| == |c|
    ensures a + b <= c + d <==> a == c && b <= d
  {
    if a + b <= c + d {
      assert a == (a + b)[..|a|] == (c + d)[..|a|] == c;
      assert b == (a + b)[|a|..] == (c + d)[|a|..|a + b|] == d[..|b|];
    }
  }

  lemma ContinuesInMap(es: seq<Entry>, m: BytesMap, k: seq<byte>, a: nibble)
    requires EntriesOf(es, m)
    ensures Continues(es, Nibbles(k) + [a]) <==> exists x :: x in m && k < x && x[|k|] / 16 == a
  {
    ContinuesAt(es, Nibbles(k) + [a]);
    if Continues(es, Nibbles(k) + [a]) {
      var i :| 0 <= i < |es| && Nibbles(k) + [a] <= es[i].key;
      EntryIsPair(es, m, i);
      NibblesAhead(k, Pack(es[i].key), a);
    }
    if x :| x in m && k < x && x[|k|] / 16 == a {
      NibblesAhead(k, x, a);
      assert Get(es, Nibbles(x)) == Find(m, x);
      GetNone(es, Nibbles(x));
    }
  }

  lemma SeenInMap(es: seq<Entry>, m: BytesMap, k: seq<byte>, sharp: bool)
    requires EntriesOf(es, m)
    ensures Seen(es, Nibbles(k), sharp) == Find(Visible(m, sharp), k)
  {
    assert Get(es, Nibbles(k)) == Find(m, k);
    if Forks(es, Nibbles(k), sharp) {
      var a: nibble, b: nibble :|
        Continues(es, Nibbles(k) + [a]) && Continues(es, Nibbles(k) + [b]) && (sharp ==> a != b);
      ContinuesInMap(es, m, k, a);
      ContinuesInMap(es, m, k, b);
      assert Hides(m, k, sharp);
    }
    if Hides(m, k, sharp) {
      var x, y :| x in m && y in m && k < x && k < y && (sharp ==> x[|k|] / 16 != y[|k|] / 16);
      ContinuesInMap(es, m, k, x[|k|] / 16);
      ContinuesInMap(es, m, k, y[|k|] / 16);
    }
  }

  lemma SortedIsDistinct(es: seq<Entry>)
    requires Sorted(es)
    ensures DistinctKeys(es)
  {
    forall i, j | 0 <= i < j < |es| ensures es[i].key != es[j].key { LessIsTotal(es[i].key, es[j].key); }
  }

  /** From the root hash on, looking a key up finds what is visible of the map. */
  lemma LookupSeesMap(h: Hash, db: Database, es: seq<Entry>, m: BytesMap, k: seq<byte>, sharp: bool)
    requires Is256(h) && EntriesOf(es, m) && Bounded(es) && Stores(h, db, Hashed(h, es))
    ensures Sound(Node(h, es)) && LookupRoot(db, Root(h, es), Nibbles(k), sharp) == Find(Visible(m, sharp), k)
  {
    SortedIsDistinct(es);
    RootLookup(h, db, es, Nibbles(k), sharp);
    SeenInMap(es, m, k, sharp);
  }

  /** All lookups give what the map says exactly when no empty value is hidden. */
  lemma LookupIsExact(h: Hash, db: Database, es: seq<Entry>, m: BytesMap, sharp: bool)
    requires Is256(h) && EntriesOf(es, m) && Bounded(es) && Stores(h, db, Hashed(h, es))
    ensures Sound(Node(h, es))
    ensures (forall k :: LookupRoot(db, Root(h, es), Nibbles(k), sharp) == Find(m, k)) <==> AllVisible(m, sharp)
  {
    NodeSound(h, es);
    forall k ensures LookupRoot(db, Root(h, es), Nibbles(k), sharp) == Find(Visible(m, sharp), k) {
      LookupSeesMap(h, db, es, m, k, sharp);
    }
    if k :| k in m && m[k] == [] && Hides(m, k, sharp) {
      assert Find(Visible(m, sharp), k) != Find(m, k);
    }
  }

  lemma SameFinds(m: BytesMap, n: BytesMap)
    requires forall k :: Find(m, k) == Find(n, k)
    ensures m == n
  {
    assert forall k :: k in m <==> Find(m, k).Some?;
    assert forall k :: k in n <==> Find(n, k).Some?;
    forall k | k in m ensures m[k] == n[k] { assert Find(m, k) == Find(n, k); }
  }

  lemma OddIsNoKey(es: seq<Entry>, k: seq<nibble>)
    requires WholeBytes(es) && |k| % 2 == 1
    ensures Seen(es, k, true) == None
  {
    GetNone(es, k);
  }

  lemma ViewsOfMaps(es: seq<Entry>, m: BytesMap, fs: seq<Entry>, n: BytesMap)
    requires EntriesOf(es, m) && EntriesOf(fs, n)
    ensures SameView(es, fs) <==> Visible(m, true) == Visible(n, true)
  {
    forall k ensures Seen(es, Nibbles(k), true) == Find(Visible(m, true), k) { SeenInMap(es, m, k, true); }
    forall k ensures Seen(fs, Nibbles(k), true) == Find(Visible(n, true), k) { SeenInMap(fs, n, k, true); }
    if SameView(es, fs) {
      SameFinds(Visible(m, true), Visible(n, true));
    }
    if Visible(m, true) == Visible(n, true) {
      forall k ensures Seen(es, k, true) == Seen(fs, k, true) {
        if |k| % 2 == 0 {
          NibblesOfPack(k);
        } else {
          OddIsNoKey(es, k);
          OddIsNoKey(fs, k);
        }
      }
    }
  }

  /** Two maps have the same root exactly when the same is visible of them to a sharp reader. */
  lemma RootsAreFaithful(h: Hash, es: seq<Entry>, m: BytesMap, fs: seq<Entry>, n: BytesMap)
    requires Is256(h) && EntriesOf(es, m) && EntriesOf(fs, n) && Bounded(es) && Bounded(fs)
    requires NoCollision(h, Hashed(h, es) + Hashed(h, fs))
    ensures Sound(Node(h, es)) && Sound(Node(h, fs))
    ensures Root(h, es) == Root(h, fs) <==> Visible(m, true) == Visible(n, true)
  {
    SortedIsDistinct(es);
    SortedIsDistinct(fs);
    RootsShowView(h, es, fs);
    ViewsOfMaps(es, m, fs, n);
  }

  lemma AllIsVisible(m: BytesMap, sharp: bool)
    ensures AllVisible(m, sharp) <==> Visible(m, sharp) == m
  {
    if k :| k in m && m[k] == [] && Hides(m, k, sharp) { assert k !in Visible(m, sharp); }
  }

  /** An empty value is lost to the ordinary reader when another key goes on, but it still shows in the root. */
  lemma LostValue(v: seq<byte>)
    ensures var m: BytesMap := map[[0x12] := [], [0x12, 0x34] := v];
      [0x12] !in Visible(m, false) && Visible(m, true) == m
  {
    var m: BytesMap := map[[0x12] := [], [0x12, 0x34] := v];
    var k: seq<byte>, x: seq<byte> := [0x12], [0x12, 0x34];
    assert k != x && x in m && k < x;
    assert Hides(m, k, false);
    AllIsVisible(m, true);
  }

  /** When keys go on in two ways, the root is the one of the map without the empty value. */
  lemma HiddenValue(h: Hash, v: seq<byte>, w: seq<byte>, es: seq<Entry>, fs: seq<Entry>)
    requires EntriesOf(es, map[[0x12] := [], [0x12, 0x34] := v, [0x12, 0x56] := w])
    requires EntriesOf(fs, map[[0x12, 0x34] := v, [0x12, 0x56] := w])
    ensures es != fs && Node(h, es) == Node(h, fs)
  {
    var n: BytesMap := map[[0x12, 0x34] := v, [0x12, 0x56] := w];
    var m: BytesMap := map[[0x12] := [], [0x12, 0x34] := v, [0x12, 0x56] := w];
    var k: seq<byte>, x: seq<byte>, y: seq<byte> := [0x12], [0x12, 0x34], [0x12, 0x56];
    assert x[1] / 16 == 3 && y[1] / 16 == 5 && x in m && y in m && k < x && k < y;
    assert Hides(m, k, true);
    assert Visible(m, true) == n && Visible(n, true) == n;
    assert Get(es, Nibbles([0x12])) == Find(m, [0x12]) && Get(fs, Nibbles([0x12])) == Find(n, [0x12]);
    ViewsOfMaps(es, m, fs, n);
    SortedIsDistinct(es);
    SortedIsDistinct(fs);
    SameNode(h, es, fs);
  }

  /** Different lists have different maps. */
  lemma IndexMapInjective(a: seq<seq<byte>>, b: seq<seq<byte>>)
    requires |a| < UNSIGNED && |b| < UNSIGNED && IndexMap(a) == IndexMap(b)
    ensures a == b
  {
    if |a| < |b| { IndexMapGets(a, |a|); IndexMapGets(b, |a|); assert false; }
    if |b| < |a| { IndexMapGets(a, |b|); IndexMapGets(b, |b|); assert false; }
    forall j | 0 <= j < |a| ensures a[j] == b[j] { IndexMapGets(a, j); IndexMapGets(b, j); }
  }

  lemma {:induction false} IndexMapKeys(data: seq<seq<byte>>, k: seq<byte>) returns (j: nat)
    requires |data| < UNSIGNED && k in IndexMap(data)
    ensures j < UNSIGNED && k == IndexKey(j)
  {
    j := |data| - 1;
    if k != IndexKey(j) { j := IndexMapKeys(data[..j], k); }
  }

  /** No rlp(i) is the front of another rlp(j). */
  lemma IndexKeyIsNoFront(i: nat, j: nat)
    requires i < UNSIGNED && j < UNSIGNED
    ensures !(IndexKey(i) < IndexKey(j))
  {
    IndexKeyIsShort(i);
    IndexKeyIsShort(j);
    var x, y := IndexKey(i), IndexKey(j);
    if x < y {
      EncodedFront(Data(BigEndian(i)), y[|x|..]);
      assert x + y[|x|..] == y;
      assert y + [] == y;
      EncodedFront(Data(BigEndian(j)), []);
    }
  }

  lemma ListIsVisible(data: seq<seq<byte>>)
    requires |data| < UNSIGNED
    ensures Visible(IndexMap(data), true) == IndexMap(data)
  {
    var m := IndexMap(data);
    forall k, x | k in m && x in m ensures !(k < x) {
      var i := IndexMapKeys(data, k);
      var j := IndexMapKeys(data, x);
      IndexKeyIsNoFront(i, j);
    }
    AllIsVisible(m, true);
  }

  /** Two lists have the same ordered root exactly when they are the same list. */
  lemma OrderedRootsAreFaithful(h: Hash, a: seq<seq<byte>>, es: seq<Entry>, b: seq<seq<byte>>, fs: seq<Entry>)
    requires |a| < UNSIGNED && |b| < UNSIGNED
    requires Is256(h) && EntriesOf(es, IndexMap(a)) && EntriesOf(fs, IndexMap(b)) && Bounded(es) && Bounded(fs)
    requires NoCollision(h, Hashed(h, es) + Hashed(h, fs))
    ensures Sound(Node(h, es)) && Sound(Node(h, fs))
    ensures Root(h, es) == Root(h, fs) <==> a == b
  {
    ListIsVisible(a);
    ListIsVisible(b);
    RootsAreFaithful(h, es, IndexMap(a), fs, IndexMap(b));
    if IndexMap(a) == IndexMap(b) { IndexMapInjective(a, b); }
  }
}
