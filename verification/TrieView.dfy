/** What a sharp reader sees of some entries determines their tree, so a lookup loses nothing that the tree keeps. */
module TrieView {
  import opened Rlp
  import opened TrieCommon
  import opened Trie
  import opened TrieLookup

  /** A sharp reader cannot tell the entries apart. */
  ghost predicate SameView(es: seq<Entry>, fs: seq<Entry>) {
    forall k :: Seen(es, k, true) == Seen(fs, k, true)
  }

  lemma {:induction false} ContinuesSize(es: seq<Entry>, p: seq<nibble>)
    requires Continues(es, p)
    ensures |p| <= Size(es)
  {
    if !(p <= es[0].key) { ContinuesSize(es[1..], p); }
  }

  lemma {:induction false} ContinuesLess(es: seq<Entry>, p: seq<nibble>, q: seq<nibble>)
    requires Continues(es, q) && p <= q
    ensures Continues(es, p)
  {
    if !(q <= es[0].key) { ContinuesLess(es[1..], p, q); }
  }

  lemma SeenContinues(es: seq<Entry>, k: seq<nibble>)
    requires Seen(es, k, true).Some?
    ensures Continues(es, k)
  {
    GetNone(es, k);
    ContinuesAt(es, k);
  }

  /** Every key can be followed to a key that is seen. */
  lemma {:induction false} GoesOn(es: seq<Entry>, p: seq<nibble>) returns (k: seq<nibble>)
    requires Continues(es, p)
    ensures p <= k && Seen(es, k, true).Some?
    decreases Size(es) - |p|
  {
    ContinuesAt(es, p);
    var i :| 0 <= i < |es| && p <= es[i].key;
    k := es[i].key;
    GetNone(es, k);
    if Seen(es, k, true).None? {
      var q := k;
      var a: nibble, b: nibble :| Continues(es, k + [a]) && Continues(es, k + [b]) && a != b;
      ContinuesSize(es, q + [a]);
      k := GoesOn(es, q + [a]);
      assert q <= q + [a] <= k;
    }
  }

  lemma SameContinues(es: seq<Entry>, fs: seq<Entry>, p: seq<nibble>)
    requires SameView(es, fs)
    ensures Continues(es, p) <==> Continues(fs, p)
  {
    if Continues(es, p) {
      var k := GoesOn(es, p);
      SeenContinues(fs, k);
      ContinuesLess(fs, p, k);
    }
    if Continues(fs, p) {
      var k := GoesOn(fs, p);
      SeenContinues(es, k);
      ContinuesLess(es, p, k);
    }
  }

  /** What all keys of fs start with, k starts with if they go on after it in two ways. */
  lemma ForkIsBehind(fs: seq<Entry>, q: seq<nibble>, k: seq<nibble>, a: nibble, b: nibble)
    requires (forall j :: 0 <= j < |fs| ==> q <= fs[j].key) && a != b
    requires Continues(fs, k + [a]) && Continues(fs, k + [b])
    ensures q <= k
  {
    ContinuesAt(fs, k + [a]);
    ContinuesAt(fs, k + [b]);
    var i :| 0 <= i < |fs| && k + [a] <= fs[i].key;
    var j :| 0 <= j < |fs| && k + [b] <= fs[j].key;
    OnTheWay(q, fs[i].key, k, a);
    OnTheWay(q, fs[j].key, k, b);
  }

  lemma OnTheWay(q: seq<nibble>, x: seq<nibble>, k: seq<nibble>, a: nibble)
    requires q <= x && k + [a] <= x
    ensures q <= k || (|k| < |q| && q[|k|] == a)
  {
    assert x[..|k|] == (k + [a])[..|k|] == k && x[|k|] == (k + [a])[|k|];
    if |q| <= |k| { assert q == x[..|k|][..|q|]; }
  }

  lemma PrefixCarries(es: seq<Entry>, fs: seq<Entry>, q: seq<nibble>)
    requires SameView(es, fs) && forall j :: 0 <= j < |fs| ==> q <= fs[j].key
    ensures forall i :: 0 <= i < |es| ==> q <= es[i].key
  {
    forall i | 0 <= i < |es| ensures q <= es[i].key {
      var k := es[i].key;
      GetNone(es, k);
      GetNone(fs, k);
      if Seen(es, k, true).None? {
        var a: nibble, b: nibble :| Continues(es, k + [a]) && Continues(es, k + [b]) && a != b;
        SameContinues(es, fs, k + [a]);
        SameContinues(es, fs, k + [b]);
        ForkIsBehind(fs, q, k, a, b);
      }
    }
  }

  lemma SameSize(es: seq<Entry>, fs: seq<Entry>)
    requires SameView(es, fs) && DistinctKeys(es) && DistinctKeys(fs)
    ensures es == [] <==> fs == []
    ensures |es| == 1 ==> es == fs
  {
    SameContinues(es, fs, []);
    ContinuesAt(es, []);
    ContinuesAt(fs, []);
    if |es| == 1 {
      var q := es[0].key;
      SeenOfOne(es, q, true);
      PrefixCarries(fs, es, q);
      forall j | 0 <= j < |fs| ensures fs[j].key == q {
        ContinuesAt(fs, fs[j].key);
        SameContinues(es, fs, fs[j].key);
        ContinuesAt(es, fs[j].key);
      }
      assert fs[0].key == fs[|fs| - 1].key;
      SeenOfOne(fs, q, true);
    }
  }

  lemma SameShared(es: seq<Entry>, fs: seq<Entry>)
    requires SameView(es, fs) && es != [] && fs != []
    ensures Shared(es) == Shared(fs) && es[0].key[..Shared(es)] == fs[0].key[..Shared(fs)]
  {
    SharedIsPrefix(es);
    SharedIsPrefix(fs);
    var p, q := es[0].key[..Shared(es)], fs[0].key[..Shared(fs)];
    PrefixCarries(fs, es, p);
    SharedAtLeast(fs, p);
    PrefixCarries(es, fs, q);
    SharedAtLeast(es, q);
    assert p <= fs[0].key;
  }

  /** The same view, the same tree. */
  lemma {:induction false} SameNode(h: Hash, es: seq<Entry>, fs: seq<Entry>)
    requires SameView(es, fs) && DistinctKeys(es) && DistinctKeys(fs)
    ensures Node(h, es) == Node(h, fs)
    decreases Size(es)
  {
    SameSize(es, fs);
    SameSize(fs, es);
    if |es| > 1 {
      SameShared(es, fs);
      if Shared(es) > 0 {
        SameExtension(h, es, fs);
      } else {
        SameBranch(h, es, fs);
      }
    }
  }

  lemma {:induction false} SameExtension(h: Hash, es: seq<Entry>, fs: seq<Entry>)
    requires SameView(es, fs) && DistinctKeys(es) && DistinctKeys(fs)
    requires |es| > 1 && |fs| > 1 && Shared(es) == Shared(fs) > 0
    requires es[0].key[..Shared(es)] == fs[0].key[..Shared(fs)]
    ensures Node(h, es) == Node(h, fs)
    decreases Size(es), 0
  {
    SharedIsPrefix(es);
    SharedIsPrefix(fs);
    var p := es[0].key[..Shared(es)];
    StripIsDistinct(es, p);
    StripIsDistinct(fs, p);
    SizeOfStrip(es, |p|);
    forall k ensures Seen(Strip(es, |p|), k, true) == Seen(Strip(fs, |p|), k, true) {
      SeenInStrip(es, p, k, true);
      SeenInStrip(fs, p, k, true);
    }
    SameNode(h, Strip(es, |p|), Strip(fs, |p|));
  }

  lemma {:induction false} SameBranch(h: Hash, es: seq<Entry>, fs: seq<Entry>)
    requires SameView(es, fs) && DistinctKeys(es) && DistinctKeys(fs)
    requires |es| > 1 && |fs| > 1 && Shared(es) == Shared(fs) == 0
    ensures Node(h, es) == Node(h, fs)
    decreases Size(es), 0
  {
    forall d: nibble ensures Children(h, es)[d] == Children(h, fs)[d] {
      SameGroup(es, fs, d);
      if Group(es, d) != [] { SameNode(h, Group(es, d), Group(fs, d)); }
    }
    assert Children(h, es) == Children(h, fs);
    assert Seen(es, [], true) == Seen(fs, [], true);
    BranchIsNode(h, es);
    BranchIsNode(h, fs);
  }

  lemma BranchIsNode(h: Hash, es: seq<Entry>)
    requires |es| > 1 && Shared(es) == 0
    ensures Node(h, es) == List(Children(h, es) + [Data(Here(es))])
  {
  }

  lemma SameGroup(es: seq<Entry>, fs: seq<Entry>, d: nibble)
    requires SameView(es, fs) && DistinctKeys(es) && DistinctKeys(fs)
    ensures var g, f := Group(es, d), Group(fs, d);
      SameView(g, f) && DistinctKeys(g) && DistinctKeys(f) && (g == [] <==> f == [])
  {
    var g, f := Group(es, d), Group(fs, d);
    GroupIsDistinct(es, d);
    GroupIsDistinct(fs, d);
    forall k ensures Seen(g, k, true) == Seen(f, k, true) {
      SeenInGroup(es, d, k, true);
      SeenInGroup(fs, d, k, true);
    }
    SameSize(g, f);
  }

  /** Two roots are equal exactly when a sharp reader sees the same. */
  lemma RootsShowView(h: Hash, es: seq<Entry>, fs: seq<Entry>)
    requires Is256(h) && Bounded(es) && Bounded(fs) && DistinctKeys(es) && DistinctKeys(fs)
    requires NoCollision(h, Hashed(h, es) + Hashed(h, fs))
    ensures Sound(Node(h, es)) && Sound(Node(h, fs))
    ensures Root(h, es) == Root(h, fs) <==> SameView(es, fs)
  {
    NodeSound(h, es);
    NodeSound(h, fs);
    if SameView(es, fs) { SameNode(h, es, fs); }
    if Root(h, es) == Root(h, fs) {
      var db := DatabaseExists(h, Hashed(h, es) + Hashed(h, fs));
      forall k ensures Seen(es, k, true) == Seen(fs, k, true) {
        RootLookup(h, db, es, k, true);
        RootLookup(h, db, fs, k, true);
      }
    }
  }
}
