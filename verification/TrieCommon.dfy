/** Nibbles and the hex-prefix encoding (libdevcore/TrieCommon.h, TrieCommon.cpp; Appendix C of the Ethereum
    Yellow Paper). */
module TrieCommon {
  import opened Bytes

  type nibble = x: int | 0 <= x < 16

  function Nibble(d: seq<byte>, i: nat): nibble
    requires i < 2 * |d|
  {
    if i % 2 == 1 then d[i / 2] % 16 else d[i / 2] / 16
  }

  function Nibbles(d: seq<byte>): (ns: seq<nibble>)
    ensures |ns| == 2 * |d|
  {
    if d == [] then [] else [d[0] / 16, d[0] % 16] + Nibbles(d[1..])
  }

  function Join(high: nibble, low: nibble): (b: byte)
    ensures b / 16 == high && b % 16 == low
  {
    (high as int) * 16 + low as int
  }

  /** Two nibbles a byte; a last odd one is the high half of a byte. */
  function Pack(ns: seq<nibble>): seq<byte> {
    if ns == [] then []
    else if |ns| == 1 then [Join(ns[0], 0)]
    else [Join(ns[0], ns[1])] + Pack(ns[2..])
  }

  lemma {:induction false} NibbleAt(d: seq<byte>, i: nat)
    requires i < 2 * |d|
    ensures Nibbles(d)[i] == Nibble(d, i)
  {
    if i >= 2 {
      NibbleAt(d[1..], i - 2);
      assert d[1..][(i - 2) / 2] == d[i / 2];
    }
  }

  lemma {:induction false} NibblesOfPack(ns: seq<nibble>)
    requires |ns| % 2 == 0
    ensures Nibbles(Pack(ns)) == ns
  {
    if ns == [] {
    } else {
      NibblesOfPack(ns[2..]);
      assert Pack(ns)[1..] == Pack(ns[2..]);
      assert ns == [ns[0], ns[1]] + ns[2..];
    }
  }

  lemma {:induction false} PackOfNibbles(d: seq<byte>)
    ensures Pack(Nibbles(d)) == d
  {
    if d == [] {
    } else {
      PackOfNibbles(d[1..]);
      assert Nibbles(d)[2..] == Nibbles(d[1..]);
      assert d == [d[0]] + d[1..];
    }
  }

  /** The flag nibble, and a zero nibble when that is needed to make the number even. */
  function Flag(odd: bool, leaf: bool): seq<nibble> {
    [(if leaf then 2 else 0) + (if odd then 1 else 0)] + if odd then [] else [0]
  }

  function HexPrefix(ns: seq<nibble>, leaf: bool): seq<byte> {
    Pack(Flag(|ns| % 2 == 1, leaf) + ns)
  }

  /** asNibbles. */
  method AsNibbles(d: seq<byte>) returns (ns: seq<nibble>)
    ensures ns == Nibbles(d)
  {
    ns := [];
    for i := 0 to |d|
      invariant ns + Nibbles(d[i..]) == Nibbles(d)
    {
      ghost var rest := d[i..];
      assert rest[1..] == d[i + 1..];
      ns := ns + [d[i] / 16];
      ns := ns + [d[i] % 16];
    }
  }

  /** Adds a nibble to the low half of the last byte, which is still zero, or starts a byte with it. */
  function PushNibble(r: seq<byte>, half: bool, n: nibble): seq<byte>
    requires half ==> r != [] && r[|r| - 1] % 16 == 0
  {
    if half then r[|r| - 1 := r[|r| - 1] + n] else r + [n * 16]
  }

  lemma {:induction false} PackOneMore(ns: seq<nibble>, n: nibble)
    ensures var half := |ns| % 2 == 1;
      && (half ==> Pack(ns) != [] && Pack(ns)[|Pack(ns)| - 1] % 16 == 0)
      && Pack(ns + [n]) == PushNibble(Pack(ns), half, n)
  {
    if |ns| >= 2 {
      PackOneMore(ns[2..], n);
      assert (ns + [n])[2..] == ns[2..] + [n];
    }
  }

  lemma {:induction false} PackTwoMore(ns: seq<nibble>, half: nat, high: nibble, low: nibble)
    requires |ns| == 2 * half
    ensures Pack(ns + [high, low]) == Pack(ns) + [Join(high, low)]
  {
    if half == 0 {
      assert ns + [high, low] == [high, low];
    } else {
      PackTwoMore(ns[2..], half - 1, high, low);
      assert (ns + [high, low])[2..] == ns[2..] + [high, low];
    }
  }

  lemma PackFlag(odd: bool, leaf: bool)
    ensures Pack(Flag(odd, leaf)) == [((if leaf then 2 else 0) + (if odd then 1 else 0)) * 16]
    ensures |Flag(odd, leaf)| == if odd then 1 else 2
  {
    assert Flag(odd, leaf)[|Flag(odd, leaf)|..] == [];
  }

  /** The loop that appends the nibbles begin to end of some bytes; d counts the nibbles written. */
  method AppendNibbles(r0: seq<byte>, d0: nat, data: seq<byte>, begin: nat, end: nat, ghost done: seq<nibble>)
    returns (r: seq<byte>, d: nat)
    requires begin <= end <= 2 * |data| && r0 == Pack(done) && d0 == |done|
    ensures r == Pack(done + Nibbles(data)[begin..end]) && d == d0 + end - begin
  {
    r, d := r0, d0;
    ghost var ns, k, sofar := Nibbles(data)[begin..end], 0, done;
    assert done + ns[..0] == done;
    for i := begin to end
      invariant k == i - begin && d == d0 + k && sofar == done + ns[..k] && r == Pack(sofar)
    {
      var n := Nibble(data, i);
      NibbleAt(data, i);
      TakeMore(done, ns, k);
      PackOneMore(sofar, n);
      r := PushNibble(r, d % 2 == 1, n);
      d, sofar, k := d + 1, sofar + [n], k + 1;
    }
    assert ns[..k] == ns;
  }

  lemma TakeMore(front: seq<nibble>, ns: seq<nibble>, k: nat)
    requires k < |ns|
    ensures front + ns[..k + 1] == front + ns[..k] + [ns[k]]
  {
    assert ns[..k + 1] == ns[..k] + [ns[k]];
  }

  /** A negative end counts from behind the last of n nibbles. */
  function EndOf(n: nat, end: int): int {
    if end < 0 then n + 1 + end else end
  }

  /** hexPrefixEncode of a vector of nibbles; a negative end counts from the back, -1 being the end. */
  method EncodeVector(v: seq<nibble>, leaf: bool, begin: nat, end: int) returns (r: seq<byte>)
    requires begin <= EndOf(|v|, end) <= |v|
    ensures r == HexPrefix(v[begin..EndOf(|v|, end)], leaf)
  {
    var b, e := begin, EndOf(|v|, end);
    var odd := (e - b) % 2 != 0;
    ghost var ns, flag, done := v[b..e], Flag(odd, leaf), Flag(odd, leaf);
    PackFlag(odd, leaf);
    r := [((if leaf then 2 else 0) + (if odd then 1 else 0)) * 16];
    if odd {
      PackOneMore(flag, v[b]);
      r := r[0 := r[0] + v[b]];
      done := flag + [v[b]];
      b := b + 1;
      assert ns == [v[begin]] + v[b..e];
    }
    r := PackPairs(r, v, b, e, done);
    assert flag + ns == done + v[b..e];
  }

  /** The loop that packs an even number of nibbles, two at a time. */
  method PackPairs(r0: seq<byte>, v: seq<nibble>, begin: nat, end: nat, ghost done: seq<nibble>) returns (r: seq<byte>)
    requires begin <= end <= |v| && (end - begin) % 2 == 0 && |done| % 2 == 0 && r0 == Pack(done)
    ensures r == Pack(done + v[begin..end])
  {
    r := r0;
    var i := begin;
    ghost var sofar, half, left := done, |done| / 2, (end - begin) / 2;
    assert v[begin..begin] == [];
    while i < end
      invariant begin <= i <= end && end - i == 2 * left && |sofar| == 2 * half
      invariant sofar == done + v[begin..i] && r == Pack(sofar)
    {
      PackTwoMore(sofar, half, v[i], v[i + 1]);
      TakeTwoMore(done, v, begin, i);
      r := r + [Join(v[i], v[i + 1])];
      i, sofar, half, left := i + 2, sofar + [v[i], v[i + 1]], half + 1, left - 1;
    }
  }

  lemma TakeTwoMore(front: seq<nibble>, v: seq<nibble>, begin: nat, i: nat)
    requires begin <= i && i + 1 < |v|
    ensures front + v[begin..i + 2] == front + v[begin..i] + [v[i], v[i + 1]]
  {
    assert v[begin..i + 2] == v[begin..i] + [v[i], v[i + 1]];
  }

  /** hexPrefixEncode of the nibbles of packed bytes. */
  method EncodePacked(data: seq<byte>, leaf: bool, beginNibble: nat, endNibble: int, offset: nat)
    returns (r: seq<byte>)
    requires offset <= 2 * |data|
    requires beginNibble <= EndOf(2 * |data| - offset, endNibble) <= 2 * |data| - offset
    ensures r == HexPrefix(Nibbles(data)[offset..][beginNibble..EndOf(2 * |data| - offset, endNibble)], leaf)
  {
    var begin := beginNibble + offset;
    var end := EndOf(2 * |data| - offset, endNibble) + offset;
    PackFlag((end - begin) % 2 == 1, leaf);
    PartOfRest(Nibbles(data), offset, beginNibble, end - offset);
    var odd := (end - begin) % 2 == 1;
    r := [((if leaf then 2 else 0) + (if odd then 1 else 0)) * 16];
    var d;
    r, d := AppendNibbles(r, if odd then 1 else 2, data, begin, end, Flag(odd, leaf));
  }

  lemma PartOfRest(ns: seq<nibble>, offset: nat, b: nat, e: nat)
    requires b <= e && offset + e <= |ns|
    ensures ns[offset..][b..e] == ns[offset + b..offset + e]
  {
  }

  /** hexPrefixEncode of the nibbles of two packed slices, one after the other. */
  method EncodeTwo(d1: seq<byte>, o1: nat, d2: seq<byte>, o2: nat, leaf: bool) returns (r: seq<byte>)
    requires o1 <= 2 * |d1| && o2 <= 2 * |d2|
    ensures r == HexPrefix(Nibbles(d1)[o1..] + Nibbles(d2)[o2..], leaf)
  {
    var end1, end2 := 2 * |d1|, 2 * |d2|;
    var odd := (end1 - o1 + end2 - o2) % 2 == 1;
    r := [((if leaf then 2 else 0) + (if odd then 1 else 0)) * 16];
    PackFlag(odd, leaf);
    ghost var flag, n1, n2 := Flag(odd, leaf), Nibbles(d1)[o1..end1], Nibbles(d2)[o2..end2];
    var d;
    r, d := AppendNibbles(r, if odd then 1 else 2, d1, o1, end1, flag);
    r, d := AppendNibbles(r, d, d2, o2, end2, flag + n1);
    ToTheEnd(Nibbles(d1), o1);
    ToTheEnd(Nibbles(d2), o2);
    assert flag + n1 + n2 == flag + (n1 + n2);
  }

  lemma ToTheEnd(ns: seq<nibble>, i: nat)
    requires i <= |ns|
    ensures ns[i..] == ns[i..|ns|]
  {
  }

  /** keyOf: the nibbles after the flag. */
  function KeyOf(hp: seq<byte>): seq<nibble> {
    if hp == [] then [] else Nibbles(hp)[if hp[0] / 16 % 2 == 1 then 1 else 2..]
  }

  /** isLeaf, on the key part of a pair. */
  predicate IsLeaf(hp: seq<byte>)
    requires hp != []
  {
    hp[0] / 32 % 2 == 1
  }

  /** Which byte strings are hex-prefix encodings: the flag is below 4, and padding is zero. */
  predicate WellFlagged(hp: seq<byte>) {
    hp != [] && hp[0] < 64 && (hp[0] / 16 % 2 == 0 ==> hp[0] % 16 == 0)
  }

  /** keyOf and isLeaf are the inverse of the encoding, on exactly the well-flagged strings. */
  lemma HexPrefixInverse(hp: seq<byte>, ns: seq<nibble>, leaf: bool)
    ensures hp == HexPrefix(ns, leaf) <==> WellFlagged(hp) && KeyOf(hp) == ns && IsLeaf(hp) == leaf
  {
    HexPrefixDecodes(ns, leaf);
    if WellFlagged(hp) { HexPrefixEncodes(hp); }
  }

  lemma HexPrefixDecodes(ns: seq<nibble>, leaf: bool)
    ensures var hp := HexPrefix(ns, leaf); WellFlagged(hp) && KeyOf(hp) == ns && IsLeaf(hp) == leaf
  {
    var all := Flag(|ns| % 2 == 1, leaf) + ns;
    assert HexPrefix(ns, leaf)[0] == Join(all[0], all[1]);
    NibblesOfPack(all);
  }

  lemma HexPrefixEncodes(hp: seq<byte>)
    requires WellFlagged(hp)
    ensures HexPrefix(KeyOf(hp), IsLeaf(hp)) == hp
  {
    var ns, odd := Nibbles(hp), hp[0] / 16 % 2 == 1;
    FlagNibble(hp[0]);
    assert ns[0] == hp[0] / 16 && ns[1] == hp[0] % 16;
    if odd {
      assert Flag(odd, IsLeaf(hp)) == [ns[0]];
      assert [ns[0]] + ns[1..] == ns;
    } else {
      assert Flag(odd, IsLeaf(hp)) == [ns[0], ns[1]];
      assert [ns[0], ns[1]] + ns[2..] == ns;
    }
    PackOfNibbles(hp);
  }

  lemma FlagNibble(h: byte)
    requires h < 64
    ensures h / 16 == (if h / 32 % 2 == 1 then 2 else 0) + (if h / 16 % 2 == 1 then 1 else 0)
  {
  }

  /** How many nibbles two keys share at the front. */
  function Common(a: seq<nibble>, b: seq<nibble>): (n: nat)
    ensures n <= |a| && n <= |b| && a[..n] == b[..n]
    ensures n < |a| && n < |b| ==> a[n] != b[n]
  {
    if a != [] && b != [] && a[0] == b[0] then
      var n := 1 + Common(a[1..], b[1..]);
      assert a[..n] == [a[0]] + a[1..][..n - 1] && b[..n] == [b[0]] + b[1..][..n - 1];
      n
    else 0
  }

  /** The order of nibble strings, in which a prefix comes first; the order of the keys in a std::map. */
  predicate Less(a: seq<nibble>, b: seq<nibble>) {
    b != [] && (a == [] || a[0] < b[0] || (a[0] == b[0] && Less(a[1..], b[1..])))
  }

  lemma {:induction false} OrderAt(a: seq<nibble>, b: seq<nibble>, i: nat)
    requires i <= |a| && i <= |b| && a[..i] == b[..i]
    ensures Less(a, b) <==> Less(a[i..], b[i..])
    ensures Common(a, b) == i + Common(a[i..], b[i..])
    decreases i
  {
    if i == 0 {
      assert a[0..] == a && b[0..] == b;
    } else {
      assert a[0] == a[..i][0] == b[0];
      assert a[1..][..i - 1] == a[..i][1..] == b[1..][..i - 1];
      OrderAt(a[1..], b[1..], i - 1);
      assert a[1..][i - 1..] == a[i..] && b[1..][i - 1..] == b[i..];
    }
  }

  /** sharedNibbles, on two ranges of nibbles of packed bytes. */
  method SharedNibbles(first: seq<byte>, beginFirst: nat, endFirst: nat,
                       second: seq<byte>, beginSecond: nat, endSecond: nat)
    returns (r: nat)
    requires beginFirst <= endFirst <= 2 * |first| && beginSecond <= endSecond <= 2 * |second|
    ensures r == Common(Nibbles(first)[beginFirst..endFirst], Nibbles(second)[beginSecond..endSecond])
  {
    r := 0;
    ghost var a, b := Nibbles(first)[beginFirst..endFirst], Nibbles(second)[beginSecond..endSecond];
    var i, j := beginFirst, beginSecond;
    while i < endFirst && j < endSecond && Nibble(first, i) == Nibble(second, j)
      invariant i == beginFirst + r <= endFirst && j == beginSecond + r <= endSecond && a[..r] == b[..r]
    {
      NibbleAt(first, i);
      NibbleAt(second, j);
      AgreeMore(a, b, r);
      i, j, r := i + 1, j + 1, r + 1;
    }
    if i < endFirst && j < endSecond {
      NibbleAt(first, i);
      NibbleAt(second, j);
    }
    CommonEnds(a, b, r);
  }

  lemma AgreeMore(a: seq<nibble>, b: seq<nibble>, r: nat)
    requires r < |a| && r < |b| && a[..r] == b[..r] && a[r] == b[r]
    ensures a[..r + 1] == b[..r + 1]
  {
    assert a[..r + 1] == a[..r] + [a[r]] && b[..r + 1] == b[..r] + [b[r]];
  }

  lemma CommonEnds(a: seq<nibble>, b: seq<nibble>, r: nat)
    requires r <= |a| && r <= |b| && a[..r] == b[..r] && (r < |a| && r < |b| ==> a[r] != b[r])
    ensures Common(a, b) == r
  {
    OrderAt(a, b, r);
    assert r < |a| && r < |b| ==> a[r..][0] == a[r] && b[r..][0] == b[r];
  }

  /** isEarlierThan, on the nibbles of two slices: the order of nibble strings. */
  method IsEarlierThan(a: seq<nibble>, k: seq<nibble>) returns (earlier: bool)
    ensures earlier <==> Less(a, k)
  {
    var i := 0;
    while i < |k| && i < |a|
      invariant i <= |k| && i <= |a| && a[..i] == k[..i]
    {
      OrderAt(a, k, i);
      assert a[i..][0] == a[i] && k[i..][0] == k[i];
      if a[i] < k[i] { return true; }
      if a[i] > k[i] { return false; }
      AgreeMore(a, k, i);
      i := i + 1;
    }
    OrderAt(a, k, i);
    if i >= |k| { return false; }
    return true;
  }

  /** Byte i of packed nibbles. */
  lemma {:induction false} PackAt(ns: seq<nibble>, i: nat)
    requires |ns| % 2 == 0 && 2 * i < |ns|
    ensures |Pack(ns)| == |ns| / 2 && Pack(ns)[i] == (ns[2 * i] as int) * 16 + ns[2 * i + 1] as int
  {
    if |ns| == 2 {
      assert ns[2..] == [];
    } else if i == 0 {
      PackAt(ns[2..], 0);
    } else {
      PackAt(ns[2..], i - 1);
    }
  }

  /** The hex-prefix encoding in numbers: a first byte 0x00, 0x1n, 0x20 or 0x3n, by leaf and parity, then two nibbles a
      byte. */
  lemma HexPrefixBytes(ns: seq<nibble>, leaf: bool)
    ensures var r, odd := HexPrefix(ns, leaf), |ns| % 2;
      && |r| == 1 + |ns| / 2
      && r[0] == (if leaf then 0x20 else 0) + (if odd == 1 then 0x10 + ns[0] as int else 0)
      && forall i :: 0 <= i < |ns| / 2 ==>
           r[i + 1] == (ns[2 * i + odd] as int) * 16 + ns[2 * i + odd + 1] as int
  {
    var odd := |ns| % 2 == 1;
    var all := Flag(odd, leaf) + ns;
    PackAt(all, 0);
    forall i | 0 <= i < |ns| / 2
      ensures Pack(all)[i + 1] == (ns[2 * i + |ns| % 2] as int) * 16 + ns[2 * i + |ns| % 2 + 1] as int
    {
      PackAt(all, i + 1);
    }
  }

  /** The nibbles of a byte, high one first. */
  lemma {:induction false} NibblesOfByte(d: seq<byte>, i: nat)
    requires i < |d|
    ensures Nibbles(d)[2 * i] == d[i] / 16 && Nibbles(d)[2 * i + 1] == d[i] % 16
  {
    if i > 0 { NibblesOfByte(d[1..], i - 1); }
  }
}
