/** libdevcore/TrieHash.cpp: the recursion over a sorted map that writes the tree into RLP streams. */
module TrieHash {
  import opened Prelude
  import opened Bytes
  import opened Rlp
  import opened RlpStream
  import opened RlpWriter
  import opened TrieCommon
  import opened Trie
  import opened TrieLookup

  ghost predicate Sorted(es: seq<Entry>) {
    forall i, j :: 0 <= i < j < |es| ==> Less(es[i].key, es[j].key)
  }

  /** All keys of the entries begin to end have the first n nibbles in common. */
  ghost predicate Agree(es: seq<Entry>, begin: nat, end: nat, n: nat) {
    && begin <= end <= |es| && (begin < end ==> n <= |es[begin].key|)
    && forall i :: begin <= i < end ==> es[begin].key[..n] <= es[i].key
  }

  /** The entries begin to end with keys relative to a node n nibbles down. */
  ghost function Part(es: seq<Entry>, begin: nat, end: nat, n: nat): (r: seq<Entry>)
    requires Agree(es, begin, end, n)
    ensures |r| == end - begin
    ensures forall k :: 0 <= k < |r| ==> r[k] == Entry(es[begin + k].key[n..], es[begin + k].value)
  {
    Strip(es[begin..end], n)
  }

  lemma {:induction false} LessWithoutPrefix(p: seq<nibble>, a: seq<nibble>, b: seq<nibble>)
    requires p <= a && p <= b && Less(a, b)
    ensures Less(a[|p|..], b[|p|..])
  {
    if p == [] {
    } else {
      LessWithoutPrefix(p[1..], a[1..], b[1..]);
      assert a[1..][|p[1..]|..] == a[|p|..] && b[1..][|p[1..]|..] == b[|p|..];
    }
  }

  lemma PartIsSorted(es: seq<Entry>, begin: nat, end: nat, n: nat)
    requires Sorted(es) && Agree(es, begin, end, n)
    ensures Sorted(Part(es, begin, end, n))
  {
    var r := Part(es, begin, end, n);
    forall i, j | 0 <= i < j < |r| ensures Less(r[i].key, r[j].key) {
      LessWithoutPrefix(es[begin].key[..n], es[begin + i].key, es[begin + j].key);
    }
  }

  /** g is the entries t without the first nibble. */
  ghost predicate IsRun(g: seq<Entry>, t: seq<Entry>) {
    |g| == |t| && forall k :: 0 <= k < |t| ==> t[k].key != [] && g[k] == Entry(t[k].key[1..], t[k].value)
  }

  /** The keys from b to n, and no others, start with d. */
  ghost predicate Parted(s: seq<Entry>, d: nibble, b: nat, n: nat) {
    && b <= n <= |s|
    && (forall i :: 0 <= i < b ==> s[i].key == [] || s[i].key[0] < d)
    && (forall i :: b <= i < n ==> s[i].key != [] && s[i].key[0] == d)
    && forall i :: n <= i < |s| ==> s[i].key != [] && s[i].key[0] > d
  }

  function Before(n: nat): nat {
    if n > 0 then n - 1 else 0
  }

  lemma PartedRest(s: seq<Entry>, d: nibble, b: nat, n: nat)
    requires s != [] && Parted(s, d, b, n)
    ensures Parted(s[1..], d, Before(b), Before(n))
  {
    var t := s[1..];
    assert forall i :: 0 <= i < |t| ==> t[i] == s[i + 1];
  }

  /** In a sorted part, the keys that start with d stand together. */
  lemma {:induction false} GroupIsRun(s: seq<Entry>, d: nibble, b: nat, n: nat)
    requires Parted(s, d, b, n)
    ensures IsRun(Group(s, d), s[b..n])
    decreases |s|
  {
    if s == [] {
    } else {
      var t, x, y := s[1..], Before(b), Before(n);
      PartedRest(s, d, b, n);
      GroupIsRun(t, d, x, y);
      if b == 0 && n > 0 {
        RunLonger(Group(t, d), t[x..y], s[0]);
        assert [s[0]] + t[x..y] == s[b..n];
      } else {
        assert t[x..y] == s[b..n];
      }
    }
  }

  lemma RunLonger(g: seq<Entry>, t: seq<Entry>, e: Entry)
    requires e.key != [] && IsRun(g, t)
    ensures IsRun([Entry(e.key[1..], e.value)] + g, [e] + t)
  {
  }

  lemma {:induction false} FirstNibbleGrows(s: seq<Entry>, i: nat, j: nat)
    requires Sorted(s) && i <= j < |s| && s[i].key != []
    ensures s[j].key != [] && s[i].key[0] <= s[j].key[0]
  {
    if i < j { assert Less(s[i].key, s[j].key); }
  }

  /** Only the first of the sorted keys can be empty. */
  lemma HereIsFirst(s: seq<Entry>)
    requires Sorted(s) && s != []
    ensures Here(s) == if s[0].key == [] then s[0].value else []
    ensures forall i :: 0 < i < |s| ==> s[i].key != []
  {
    forall i | 0 < i < |s| ensures s[i].key != [] { assert Less(s[0].key, s[i].key); }
    if s[0].key != [] { GetNone(s, []); }
  }

  lemma {:induction false} SharedByMore(s: seq<Entry>, i: nat)
    requires 0 < i <= |s| && Shared(s[..i]) == 0
    ensures Shared(s) == 0
    decreases |s|
  {
    if i == |s| {
      assert s[..i] == s;
    } else {
      assert s[..|s| - 1][..i] == s[..i];
      SharedByMore(s[..|s| - 1], i);
    }
  }

  lemma SharedByOneMore(s: seq<Entry>, i: nat)
    requires 0 < i < |s|
    ensures var c, m := Common(s[0].key, s[i].key), Shared(s[..i]);
      && Shared(s[..i + 1]) == (if m < c then m else c) && c <= |s[0].key| && c <= |s[i].key|
      && (i == 1 ==> Shared(s[..i + 1]) == c)
  {
    var t := s[..i + 1];
    assert t[..i] == s[..i] && t[i] == s[i];
  }

  /** The loop that finds how far all keys agree. */
  method SharedPre(es: seq<Entry>, begin: nat, end: nat, preLen: nat) returns (sharedPre: nat)
    requires Bounded(es) && Agree(es, begin, end, preLen) && begin + 1 < end
    ensures sharedPre == preLen + Shared(Part(es, begin, end, preLen))
  {
    sharedPre := 0xffff_ffff;
    var i := begin + 1;
    ghost var k := 1;
    while i != end && sharedPre != 0
      invariant begin < i <= end && k == i - begin && sharedPre == SharedSoFar(es, begin, end, preLen, k)
      decreases end - i
    {
      ghost var next := k + 1;
      NextShared(es, begin, end, preLen, i, k, next);
      var shared := CompareKeys(es[begin].key, es[i].key, preLen, sharedPre);
      sharedPre := if shared < sharedPre then shared else sharedPre;
      i, k := i + 1, next;
    }
    SharedEnds(es, begin, end, preLen, k);
  }

  /** The value of sharedPre after the first k keys. */
  ghost function SharedSoFar(es: seq<Entry>, begin: nat, end: nat, preLen: nat, k: nat): nat
    requires Agree(es, begin, end, preLen) && 0 < k <= end - begin
  {
    if k == 1 then 0xffff_ffff else preLen + Shared(Part(es, begin, end, preLen)[..k])
  }

  lemma SharedEnds(es: seq<Entry>, begin: nat, end: nat, preLen: nat, k: nat)
    requires Agree(es, begin, end, preLen) && 0 < k <= end - begin && begin + 1 < end
    requires k == end - begin || SharedSoFar(es, begin, end, preLen, k) == 0
    ensures SharedSoFar(es, begin, end, preLen, k) == preLen + Shared(Part(es, begin, end, preLen))
  {
    var s := Part(es, begin, end, preLen);
    if k < |s| { SharedByMore(s, k); } else { assert s[..k] == s; }
  }

  lemma NextShared(es: seq<Entry>, begin: nat, end: nat, preLen: nat, i: nat, k: nat, next: nat)
    requires Bounded(es) && Agree(es, begin, end, preLen) && begin < i < end && k == i - begin && next == k + 1
    ensures preLen <= |es[begin].key| && preLen <= |es[i].key|
    ensures preLen <= SharedSoFar(es, begin, end, preLen, k)
    ensures var c, x := preLen + Common(es[begin].key[preLen..], es[i].key[preLen..]),
                        SharedSoFar(es, begin, end, preLen, k);
      SharedSoFar(es, begin, end, preLen, next) == if c < x then c else x
  {
    var s := Part(es, begin, end, preLen);
    assert s[0] == Entry(es[begin].key[preLen..], es[begin].value);
    assert s[k] == Entry(es[i].key[preLen..], es[i].value);
    SharedByOneMore(s, k);
  }

  /** The inner loop: how far two keys agree, as far as that can still matter. */
  method CompareKeys(a: seq<nibble>, b: seq<nibble>, preLen: nat, sharedPre: nat) returns (shared: nat)
    requires preLen <= sharedPre && preLen <= |a| && preLen <= |b|
    ensures var c := preLen + Common(a[preLen..], b[preLen..]); shared == if c < sharedPre then c else sharedPre
  {
    var x := if |a| < |b| then |a| else |b|;
    x := if sharedPre < x then sharedPre else x;
    shared := preLen;
    while shared < x && a[shared] == b[shared]
      invariant preLen <= shared <= preLen + Common(a[preLen..], b[preLen..]) && shared <= x
    {
      shared := shared + 1;
    }
  }

  lemma PartEntry(es: seq<Entry>, begin: nat, end: nat, n: nat, p: seq<nibble>, i: nat)
    requires Agree(es, begin, end, n) && begin <= i < end && p <= Part(es, begin, end, n)[i - begin].key
    ensures n + |p| <= |es[i].key| && es[i].key[..n + |p|] == es[begin].key[..n] + p
    ensures var x := Part(es, begin, end, n)[i - begin];
      Entry(es[i].key[n + |p|..], es[i].value) == Entry(x.key[|p|..], x.value)
  {
    var k := i - begin;
    assert Part(es, begin, end, n)[k] == Entry(es[begin + k].key[n..], es[begin + k].value);
    SplitKey(es[begin].key[..n], p, es[i].key);
  }

  lemma PartOfPart(es: seq<Entry>, begin: nat, end: nat, n: nat, b: nat, e: nat, m: nat)
    requires Agree(es, begin, end, n) && begin <= b < e <= end
    requires var s := Part(es, begin, end, n)[b - begin..e - begin];
      m <= |s[0].key| && forall i :: 0 <= i < |s| ==> s[0].key[..m] <= s[i].key
    ensures Agree(es, b, e, n + m)
    ensures Part(es, b, e, n + m) == Strip(Part(es, begin, end, n)[b - begin..e - begin], m)
  {
    var s := Part(es, begin, end, n)[b - begin..e - begin];
    var p := s[0].key[..m];
    forall i | b <= i < e
      ensures n + m <= |es[i].key| && es[i].key[..n + m] == es[begin].key[..n] + p
      ensures Entry(es[i].key[n + m..], es[i].value) == Entry(s[i - b].key[m..], s[i - b].value)
    {
      assert s[i - b] == Part(es, begin, end, n)[i - begin];
      PartEntry(es, begin, end, n, p, i);
    }
    PartFromEntries(es, b, e, n + m, s, m);
  }

  lemma PartFromEntries(es: seq<Entry>, b: nat, e: nat, n: nat, s: seq<Entry>, m: nat)
    requires b < e <= |es| && |s| == e - b && forall i :: 0 <= i < |s| ==> m <= |s[i].key|
    requires n <= |es[b].key| && forall i :: b <= i < e ==> n <= |es[i].key| && es[i].key[..n] == es[b].key[..n]
    requires forall i :: b <= i < e ==> Entry(es[i].key[n..], es[i].value) == Entry(s[i - b].key[m..], s[i - b].value)
    ensures Agree(es, b, e, n) && Part(es, b, e, n) == Strip(s, m)
  {
    var p, q := Part(es, b, e, n), Strip(s, m);
    forall k | 0 <= k < |p| ensures p[k] == q[k] {
      assert p[k] == Entry(es[b + k].key[n..], es[b + k].value);
    }
  }

  lemma SplitKey(p: seq<nibble>, q: seq<nibble>, key: seq<nibble>)
    requires p <= key && q <= key[|p|..]
    ensures |p| + |q| <= |key| && key[..|p| + |q|] == p + q && key[|p| + |q|..] == key[|p|..][|q|..]
  {
    assert key == p + key[|p|..];
  }

  /** hash256rlp: writes the node of the entries begin to end into a new stream. Nothing throws. */
  method Hash256Rlp(h: Hash, es: seq<Entry>, begin: nat, end: nat, preLen: nat, rlp: RLPStream)
    requires Is256(h) && Bounded(es) && Sorted(es) && Agree(es, begin, end, preLen)
    requires rlp.State() == Stream([], [])
    modifies rlp
    ensures Sound(Node(h, Part(es, begin, end, preLen)))
    ensures rlp.State() == Stream(Encode(Node(h, Part(es, begin, end, preLen))).value, [])
    decreases Size(Part(es, begin, end, preLen)), 2
  {
    PartIsBounded(es, begin, end, preLen);
    NodeSound(h, Part(es, begin, end, preLen));
    if begin == end {
      var r := rlp.Append([], false);
      assert [] + Encode(Data([])).value == Encode(Data([])).value;
    } else if begin + 1 == end {
      Leaf(es[begin], preLen, rlp);
    } else {
      var sharedPre := SharedPre(es, begin, end, preLen);
      if sharedPre > preLen {
        ExtensionIsNode(h, es, begin, end, preLen, sharedPre);
        Extension(h, es, begin, end, preLen, sharedPre, rlp);
      } else {
        Branch(h, es, begin, end, preLen, rlp);
      }
    }
  }

  lemma ExtensionIsNode(h: Hash, es: seq<Entry>, begin: nat, end: nat, preLen: nat, sharedPre: nat)
    requires Agree(es, begin, end, preLen) && begin + 1 < end
    requires sharedPre == preLen + Shared(Part(es, begin, end, preLen)) > preLen
    ensures sharedPre <= |es[begin].key| && Agree(es, begin, end, sharedPre)
    ensures Size(Part(es, begin, end, sharedPre)) < Size(Part(es, begin, end, preLen))
    ensures Node(h, Part(es, begin, end, preLen)) ==
            List([Data(HexPrefix(es[begin].key[preLen..sharedPre], false)),
                  Ref(h, Node(h, Part(es, begin, end, sharedPre)))])
  {
    var s, n := Part(es, begin, end, preLen), sharedPre - preLen;
    SharedIsPrefix(s);
    assert s[0..end - begin] == s;
    PartOfPart(es, begin, end, preLen, begin, end, n);
    assert preLen + n == sharedPre;
    SizeOfStrip(s, n);
    assert s[0] == Entry(es[begin].key[preLen..], es[begin].value);
    assert s[0].key[..n] == es[begin].key[preLen..sharedPre];
    NodeOfExtension(h, s, es[begin].key[preLen..sharedPre], Part(es, begin, end, sharedPre));
  }

  lemma NodeOfExtension(h: Hash, s: seq<Entry>, ns: seq<nibble>, rest: seq<Entry>)
    requires |s| > 1 && Shared(s) > 0 && forall i :: 0 <= i < |s| ==> Shared(s) <= |s[i].key|
    requires ns == s[0].key[..Shared(s)] && rest == Strip(s, Shared(s))
    ensures Node(h, s) == List([Data(HexPrefix(ns, false)), Ref(h, Node(h, rest))])
  {
  }

  /** The pair for a single entry. */
  method Leaf(e: Entry, preLen: nat, rlp: RLPStream)
    requires Bounded([e]) && preLen <= |e.key| && rlp.State() == Stream([], [])
    modifies rlp
    ensures var i := Encode(List([Data(HexPrefix(e.key[preLen..], true)), Data(e.value)]));
      i.Some? && rlp.State() == Stream(i.value, [])
  {
    ghost var ns := e.key[preLen..];
    assert ns == e.key[preLen..|e.key|];
    LeafCloses(e, ns);
    var key := EncodeVector(e.key, true, preLen, -1);
    AppendPair(rlp, key, e.value, Encode(Data(key)).value, Encode(Data(e.value)).value,
               Encode(List([Data(key), Data(e.value)])).value);
  }

  /** A list of two byte strings. */
  method AppendPair(rlp: RLPStream, a: seq<byte>, b: seq<byte>,
                    ghost x: seq<byte>, ghost y: seq<byte>, ghost e: seq<byte>)
    requires rlp.State() == Stream([], []) && |a| < SIZE_LIMIT && |b| < SIZE_LIMIT
    requires Encode(Data(a)) == Some(x) && Encode(Data(b)) == Some(y) && ClosesPair(x, y, e)
    modifies rlp
    ensures rlp.State() == Stream(e, [])
  {
    var r := rlp.AppendList(2);
    assert rlp.State() == Open([], 2);
    r := rlp.Append(a, false);
    assert rlp.State() == Open(x, 1);
    r := rlp.Append(b, false);
  }

  /** Appending x and then y to an open list of two leaves e and no open list. */
  ghost predicate ClosesPair(x: seq<byte>, y: seq<byte>, e: seq<byte>) {
    && WellNested(Open([], 2)) && Appended(Open([], 2), x) == Ok(Open(x, 1))
    && WellNested(Open(x, 1)) && Appended(Open(x, 1), y) == Ok(Stream(e, []))
  }

  lemma LeafCloses(e: Entry, ns: seq<nibble>)
    requires Bounded([e]) && |ns| <= |e.key|
    ensures |HexPrefix(ns, true)| < SIZE_LIMIT && |e.value| < SIZE_LIMIT
    ensures var x, y, i := Encode(Data(HexPrefix(ns, true))), Encode(Data(e.value)),
                           Encode(List([Data(HexPrefix(ns, true)), Data(e.value)]));
      x.Some? && y.Some? && i.Some? && ClosesPair(x.value, y.value, i.value)
  {
    assert [e][0] == e;
    DataSize(e.value);
    PairSound(ns, true, Data(e.value));
    PairWritten(ns, true, Data(e.value));
  }

  /** The pair for entries that agree up to sharedPre. */
  method Extension(h: Hash, es: seq<Entry>, begin: nat, end: nat, preLen: nat, sharedPre: nat, rlp: RLPStream)
    requires Is256(h) && Bounded(es) && Sorted(es) && begin < end <= |es|
    requires preLen < sharedPre <= |es[begin].key| && Agree(es, begin, end, sharedPre)
    requires rlp.State() == Stream([], [])
    modifies rlp
    ensures var e := Encode(List([Data(HexPrefix(es[begin].key[preLen..sharedPre], false)),
                                  Ref(h, Node(h, Part(es, begin, end, sharedPre)))]));
      e.Some? && rlp.State() == Stream(e.value, [])
    decreases Size(Part(es, begin, end, sharedPre)), 4
  {
    ghost var ns, child := es[begin].key[preLen..sharedPre], Node(h, Part(es, begin, end, sharedPre));
    PartIsBounded(es, begin, end, sharedPre);
    NodeSound(h, Part(es, begin, end, sharedPre));
    RefSize(h, child);
    PairSound(ns, false, Ref(h, child));
    PairWritten(ns, false, Ref(h, child));
    var r := rlp.AppendList(2);
    assert rlp.State() == Open([], 2);
    var key := EncodeVector(es[begin].key, false, preLen, sharedPre);
    r := rlp.Append(key, false);
    r := Hash256Aux(h, es, begin, end, sharedPre, rlp);
  }

  /** The 17 entries of a branch node. */
  method Branch(h: Hash, es: seq<Entry>, begin: nat, end: nat, preLen: nat, rlp: RLPStream)
    requires Is256(h) && Bounded(es) && Sorted(es) && Agree(es, begin, end, preLen) && begin + 1 < end
    requires rlp.State() == Stream([], [])
    modifies rlp
    ensures var s := Part(es, begin, end, preLen);
      var e := Encode(List(Children(h, s) + [Data(Here(s))]));
      e.Some? && rlp.State() == Stream(e.value, [])
    decreases Size(Part(es, begin, end, preLen)), 1
  {
    ghost var s := Part(es, begin, end, preLen);
    ghost var c := Children(h, s);
    PartIsBounded(es, begin, end, preLen);
    FirstEntry(es, begin, end, preLen);
    ghost var p: seq<byte> := [];
    var r := rlp.AppendList(17);
    assert rlp.State() == Open(p, 17) && c[..0] == [];
    var b := begin;
    if preLen == |es[b].key| { b := b + 1; }
    ghost var left := 17;
    for i := 0 to 16
      invariant begin <= b <= end && EncodeAll(c[..i]) == Some(p) && left == 17 - i && rlp.State() == Open(p, left)
      invariant Passed(s, b - begin, i)
    {
      ghost var next := left - 1;
      b, p := Slot(h, es, begin, b, end, preLen, i, rlp, p, left, next);
      left := next;
    }
    assert c[..16] == c;
    LastWritten(h, s, p);
    r := rlp.Append(if preLen == |es[begin].key| then es[begin].value else [], false);
  }

  /** Only the first entry can end at a branch node. */
  lemma FirstEntry(es: seq<Entry>, begin: nat, end: nat, preLen: nat)
    requires Sorted(es) && Agree(es, begin, end, preLen) && begin < end
    ensures var s, here := Part(es, begin, end, preLen), preLen == |es[begin].key|;
      && Here(s) == (if here then es[begin].value else [])
      && Passed(s, if here then 1 else 0, 0)
  {
    var s := Part(es, begin, end, preLen);
    PartIsSorted(es, begin, end, preLen);
    HereIsFirst(s);
    assert s[0] == Entry(es[begin].key[preLen..], es[begin].value);
  }

  /** Slot number i of a branch node. */
  method Slot(h: Hash, es: seq<Entry>, ghost begin: nat, b: nat, end: nat, preLen: nat, i: nibble, rlp: RLPStream,
              ghost p: seq<byte>, ghost left: nat, ghost next: nat)
    returns (n: nat, ghost q: seq<byte>)
    requires Is256(h) && Bounded(es) && Sorted(es) && Agree(es, begin, end, preLen) && begin <= b <= end
    requires Passed(Part(es, begin, end, preLen), b - begin, i)
    requires left == next + 1 && left + i == 17 && rlp.State() == Open(p, left)
    requires EncodeAll(Children(h, Part(es, begin, end, preLen))[..i]) == Some(p)
    modifies rlp
    ensures b <= n <= end && Passed(Part(es, begin, end, preLen), n - begin, i + 1)
    ensures rlp.State() == Open(q, next)
    ensures EncodeAll(Children(h, Part(es, begin, end, preLen))[..i + 1]) == Some(q)
    decreases Size(Part(es, begin, end, preLen)), 0
  {
    ghost var s := Part(es, begin, end, preLen);
    PartIsBounded(es, begin, end, preLen);
    n := Run(es, begin, b, end, preLen, i);
    ChildWritten(h, s, i, p, left, next);
    q := p + Encode(Children(h, s)[i]).value;
    var r;
    if b == n {
      r := rlp.Append([], false);
    } else {
      RunAgrees(es, begin, end, preLen, b, n, i);
      r := Hash256Aux(h, es, b, n, preLen + 1, rlp);
    }
  }

  /** The first b keys are done with at nibble d. */
  ghost predicate Passed(s: seq<Entry>, b: nat, d: nat) {
    && b <= |s|
    && (forall k :: 0 <= k < b ==> s[k].key == [] || s[k].key[0] < d)
    && forall k :: b <= k < |s| ==> s[k].key != [] && s[k].key[0] >= d
  }

  /** The keys b to n are those that start with d, and with them the slots up to d are done. */
  ghost predicate IsGroup(s: seq<Entry>, b: nat, n: nat, d: nibble) {
    && b <= n && Passed(s, n, d + 1) && IsRun(Group(s, d), s[b..n])
    && forall k :: b <= k < n ==> s[k].key != [] && s[k].key[0] == d
  }

  /** The loop that finds the end of the keys with nibble d at preLen. */
  method Run(es: seq<Entry>, ghost begin: nat, b: nat, end: nat, preLen: nat, d: nibble) returns (n: nat)
    requires Sorted(es) && Agree(es, begin, end, preLen) && begin <= b <= end
    requires Passed(Part(es, begin, end, preLen), b - begin, d)
    ensures b <= n <= end && IsGroup(Part(es, begin, end, preLen), b - begin, n - begin, d)
  {
    HeadNibbles(es, begin, b, end, preLen, d);
    n := FindEnd(es, b, end, preLen, d);
    RunStops(es, begin, end, preLen, b, n, d, Part(es, begin, end, preLen), b - begin, n - begin);
  }

  method FindEnd(es: seq<Entry>, b: nat, end: nat, preLen: nat, d: nibble) returns (n: nat)
    requires b <= end <= |es| && forall i :: b <= i < end ==> |es[i].key| > preLen
    ensures b <= n <= end && (forall i :: b <= i < n ==> es[i].key[preLen] == d)
    ensures n < end ==> es[n].key[preLen] != d
  {
    n := b;
    while n != end && es[n].key[preLen] == d
      invariant b <= n <= end && forall i :: b <= i < n ==> es[i].key[preLen] == d
    {
      n := n + 1;
    }
  }

  lemma RunStops(es: seq<Entry>, begin: nat, end: nat, preLen: nat, b: nat, n: nat, d: nibble,
                 s: seq<Entry>, x: nat, y: nat)
    requires Sorted(es) && Agree(es, begin, end, preLen) && begin <= b <= n <= end
    requires s == Part(es, begin, end, preLen) && x == b - begin && y == n - begin && Passed(s, x, d)
    requires forall i :: b <= i < end ==> |es[i].key| > preLen
    requires forall i :: b <= i < n ==> es[i].key[preLen] == d
    requires n < end ==> es[n].key[preLen] != d
    ensures IsGroup(s, x, y, d)
  {
    InPart(es, begin, end, preLen, b, n, d, s, x, y);
    PartIsSorted(es, begin, end, preLen);
    RunEnds(s, x, y, d);
  }

  /** The keys b to n start with d, and the next one does not. */
  ghost predicate Ends(s: seq<Entry>, b: nat, n: nat, d: nibble) {
    && b <= n <= |s|
    && (forall k :: b <= k < n ==> s[k].key != [] && s[k].key[0] == d)
    && (n < |s| ==> s[n].key != [] && s[n].key[0] != d)
  }

  /** What the loop has seen, in terms of the part. */
  lemma InPart(es: seq<Entry>, begin: nat, end: nat, preLen: nat, b: nat, n: nat, d: nibble,
               s: seq<Entry>, x: nat, y: nat)
    requires Agree(es, begin, end, preLen) && begin <= b <= n <= end
    requires s == Part(es, begin, end, preLen) && x == b - begin && y == n - begin
    requires forall i :: b <= i < end ==> |es[i].key| > preLen
    requires forall i :: b <= i < n ==> es[i].key[preLen] == d
    requires n < end ==> es[n].key[preLen] != d
    ensures Ends(s, x, y, d)
  {
    forall k | x <= k < |s| ensures s[k].key != [] && s[k].key[0] == es[begin + k].key[preLen] {
      assert s[k] == Entry(es[begin + k].key[preLen..], es[begin + k].value);
    }
  }

  /** The keys that are not yet done with go on after preLen. */
  lemma HeadNibbles(es: seq<Entry>, begin: nat, b: nat, end: nat, preLen: nat, d: nibble)
    requires Agree(es, begin, end, preLen) && begin <= b <= end && Passed(Part(es, begin, end, preLen), b - begin, d)
    ensures forall i :: b <= i < end ==> |es[i].key| > preLen
  {
    var s := Part(es, begin, end, preLen);
    forall i | b <= i < end ensures |es[i].key| > preLen {
      var k := i - begin;
      assert s[k] == Entry(es[begin + k].key[preLen..], es[begin + k].value) && s[k].key != [];
    }
  }

  lemma RunEnds(s: seq<Entry>, b: nat, n: nat, d: nibble)
    requires Sorted(s) && Passed(s, b, d) && Ends(s, b, n, d)
    ensures IsGroup(s, b, n, d)
  {
    forall k | n <= k < |s| ensures s[k].key[0] > d {
      FirstNibbleGrows(s, n, k);
    }
    GroupIsRun(s, d, b, n);
  }

  lemma RunAgrees(es: seq<Entry>, begin: nat, end: nat, preLen: nat, b: nat, n: nat, d: nibble)
    requires Agree(es, begin, end, preLen) && begin <= b < n <= end
    requires IsGroup(Part(es, begin, end, preLen), b - begin, n - begin, d)
    ensures Agree(es, b, n, preLen + 1)
    ensures Part(es, b, n, preLen + 1) == Group(Part(es, begin, end, preLen), d)
    ensures Size(Part(es, b, n, preLen + 1)) < Size(Part(es, begin, end, preLen))
  {
    ghost var s := Part(es, begin, end, preLen);
    ghost var t := s[b - begin..n - begin];
    forall i | 0 <= i < |t| ensures t[0].key[..1] <= t[i].key {
      assert t[0].key[..1] == [t[0].key[0]] && t[i] == s[b - begin + i];
    }
    PartOfPart(es, begin, end, preLen, b, n, 1);
    assert Part(es, b, n, preLen + 1) == Group(s, d);
    assert |Group(s, d)| > 0;
  }

  /** hash256aux: appends the node of the entries, or its hash, to the stream of the parent. */
  method Hash256Aux(h: Hash, es: seq<Entry>, begin: nat, end: nat, preLen: nat, rlp: RLPStream)
    returns (r: Option<StreamError>)
    requires Is256(h) && Bounded(es) && Sorted(es) && Agree(es, begin, end, preLen)
    requires WellNested(rlp.State())
    modifies rlp
    ensures Sound(Ref(h, Node(h, Part(es, begin, end, preLen))))
    ensures match Appended(old(rlp.State()), Encode(Ref(h, Node(h, Part(es, begin, end, preLen)))).value)
            case Ok(s) => r == None && rlp.State() == s
            case Err(e) => r == Some(e)
    ensures r.None? ==> WellNested(rlp.State())
    decreases Size(Part(es, begin, end, preLen)), 3
  {
    var own := new RLPStream();
    Hash256Rlp(h, es, begin, end, preLen, own);
    RefSize(h, Node(h, Part(es, begin, end, preLen)));
    if |own.out| < 32 {
      r := rlp.AppendRaw(own.out, 1);
    } else {
      r := rlp.Append(h(own.out), false);
    }
  }

  /** A stream that has written part of its outermost list. */
  ghost function Open(p: seq<byte>, left: nat): Stream {
    Stream(p, [(left, 0)])
  }

  lemma OpenIsPartly(p: seq<byte>, left: nat)
    ensures Open(p, left) == Partly(Stream([], []), p, left)
  {
    assert [] + p == p;
    var frames: seq<Frame> := [];
    assert frames + [(left, 0)] == [(left, 0)];
  }

  lemma Closed(p: seq<byte>, e: seq<byte>)
    requires Prefixed(LIST_START, p + e).Some?
    ensures WellNested(Open(p, 1)) && Appended(Open(p, 1), e) == Ok(Stream(Prefixed(LIST_START, p + e).value, []))
  {
    var l := Prefixed(LIST_START, p + e).value;
    OpenIsPartly(p, 1);
    AppendedLast(Stream([], []), p, e);
    assert [] + l == l;
  }

  lemma ChildWritten(h: Hash, s: seq<Entry>, i: nibble, p: seq<byte>, left: nat, next: nat)
    requires left == next + 1 && left + i == 17 && Is256(h) && Bounded(s) && EncodeAll(Children(h, s)[..i]) == Some(p)
    ensures Children(h, s)[i] == if Group(s, i) == [] then Data([]) else Ref(h, Node(h, Group(s, i)))
    ensures Written(Children(h, s), i, p, left, next)
  {
    var c := Children(h, s);
    ChildrenSound(h, s);
    assert Small(c[i]);
    ItemWritten(c, i, p, left, next);
  }

  /** Item number i of the 17 can be appended, and is not the last. */
  ghost predicate Written(c: seq<Item>, i: nibble, p: seq<byte>, left: nat, next: nat)
    requires |c| == 16 && left > 1
  {
    var e := Encode(c[i]);
    && e.Some? && EncodeAll(c[..i + 1]) == Some(p + e.value)
    && WellNested(Open(p, left)) && Appended(Open(p, left), e.value) == Ok(Open(p + e.value, next))
  }

  lemma ItemWritten(c: seq<Item>, i: nibble, p: seq<byte>, left: nat, next: nat)
    requires left == next + 1 > 1 && |c| == 16 && EncodeAll(c[..i]) == Some(p) && Encode(c[i]).Some?
    ensures Written(c, i, p, left, next)
  {
    assert c[..i + 1] == c[..i] + [c[i]];
    EncodeAllAppend(c[..i], c[i]);
    OpenIsPartly(p, left);
    OpenIsPartly(p + Encode(c[i]).value, next);
    AppendedInside(Stream([], []), p, left, Encode(c[i]).value);
  }

  lemma LastWritten(h: Hash, s: seq<Entry>, p: seq<byte>)
    requires Is256(h) && Bounded(s) && EncodeAll(Children(h, s)) == Some(p)
    ensures |Here(s)| < MAX_VALUE && Encode(Data(Here(s))).Some? && WellNested(Open(p, 1))
    ensures var e := Encode(List(Children(h, s) + [Data(Here(s))]));
      e.Some? && Appended(Open(p, 1), Encode(Data(Here(s))).value) == Ok(Stream(e.value, []))
  {
    ChildrenSound(h, s);
    GetIsPart(s, []);
    DataSize(Here(s));
    BranchSound(Children(h, s), Here(s));
    EncodeAllAppend(Children(h, s), Data(Here(s)));
    Closed(p, Encode(Data(Here(s))).value);
  }

  lemma PartIsBounded(es: seq<Entry>, begin: nat, end: nat, n: nat)
    requires Bounded(es) && Agree(es, begin, end, n)
    ensures Bounded(Part(es, begin, end, n))
  {
    var r := Part(es, begin, end, n);
    forall i | 0 <= i < |r| ensures |r[i].key| < MAX_KEY && |r[i].value| < MAX_VALUE {
      assert r[i] == Entry(es[begin + i].key[n..], es[begin + i].value);
    }
  }

  lemma EncodePair(a: Item, b: Item)
    requires Sound(a) && Sound(b)
    ensures Encode(List([a, b])) == Prefixed(LIST_START, Encode(a).value + Encode(b).value)
  {
    var x, y := Encode(a).value, Encode(b).value;
    assert [a, b][1..] == [b] && [b][1..] == [];
    assert EncodeAll([b]) == Some(y + []) && y + [] == y;
    assert EncodeAll([a, b]) == Some(x + y);
  }

  /** A key and one more item appended to a list of two give the encoding of the pair. */
  lemma PairWritten(ns: seq<nibble>, leaf: bool, b: Item)
    requires |ns| < MAX_KEY && Sound(b) && Sound(List([Data(HexPrefix(ns, leaf)), b]))
    ensures |HexPrefix(ns, leaf)| < SIZE_LIMIT
    ensures var x := Encode(Data(HexPrefix(ns, leaf)));
      x.Some? && ClosesPair(x.value, Encode(b).value, Encode(List([Data(HexPrefix(ns, leaf)), b])).value)
  {
    HexPrefixSize(ns, leaf);
    var a := Data(HexPrefix(ns, leaf));
    DataSize(a.bytes);
    EncodePair(a, b);
    OpenIsPartly([], 2);
    OpenIsPartly(Encode(a).value, 1);
    AppendedInside(Stream([], []), [], 2, Encode(a).value);
    assert [] + Encode(a).value == Encode(a).value;
    Closed(Encode(a).value, Encode(b).value);
  }
}
