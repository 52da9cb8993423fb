/** Bytes and big-endian numbers (libdevcore/CommonData.h). */
module Bytes {
  type byte = x: int | 0 <= x < 0x100

  /** The shortest big-endian form of n; zero is the empty string. */
  function BigEndian(n: nat): seq<byte> {
    if n == 0 then [] else BigEndian(n / 0x100) + [n % 0x100]
  }

  function FromBigEndian(bs: seq<byte>): nat {
    if bs == [] then 0 else FromBigEndian(bs[..|bs| - 1]) * 0x100 + bs[|bs| - 1]
  }

  function Pow256(k: nat): (r: nat)
    ensures r > 0
  {
    if k == 0 then 1 else 0x100 * Pow256(k - 1)
  }

  lemma {:induction false} FromToBigEndian(n: nat)
    ensures FromBigEndian(BigEndian(n)) == n
  {
    if n == 0 {
    } else {
      FromToBigEndian(n / 0x100);
      assert BigEndian(n)[..|BigEndian(n)| - 1] == BigEndian(n / 0x100);
    }
  }

  lemma {:induction false} BigEndianNoLeadingZero(n: nat)
    ensures n > 0 ==> |BigEndian(n)| > 0 && BigEndian(n)[0] != 0
  {
    if n == 0 {
    } else {
      BigEndianNoLeadingZero(n / 0x100);
    }
  }

  /** Highest byte first: a byte in front counts 256 to the number of bytes behind it. */
  lemma {:induction false} FirstByteIsHighest(x: byte, bs: seq<byte>)
    ensures FromBigEndian([x] + bs) == x * Pow256(|bs|) + FromBigEndian(bs)
  {
    var all := [x] + bs;
    if bs == [] {
      assert all[..0] == [];
    } else {
      var front := bs[..|bs| - 1];
      FirstByteIsHighest(x, front);
      assert all[..|all| - 1] == [x] + front;
      assert (x * Pow256(|front|)) * 0x100 == x * (0x100 * Pow256(|front|));
    }
  }

  /** Strings without a leading zero are exactly the shortest forms. */
  lemma {:induction false} ToFromBigEndian(bs: seq<byte>)
    requires bs == [] || bs[0] != 0
    ensures BigEndian(FromBigEndian(bs)) == bs
    ensures bs != [] ==> FromBigEndian(bs) > 0
  {
    if bs == [] {
    } else {
      var front := bs[..|bs| - 1];
      if front != [] { ToFromBigEndian(front); }
      assert FromBigEndian(bs) / 0x100 == FromBigEndian(front);
      assert FromBigEndian(bs) % 0x100 == bs[|bs| - 1];
      assert bs == front + [bs[|bs| - 1]];
    }
  }

  lemma {:induction false} FromBigEndianBound(bs: seq<byte>)
    ensures FromBigEndian(bs) < Pow256(|bs|)
  {
    if bs == [] {
    } else {
      FromBigEndianBound(bs[..|bs| - 1]);
    }
  }

  lemma {:induction false} BigEndianLength(n: nat, k: nat)
    ensures |BigEndian(n)| <= k <==> n < Pow256(k)
    decreases k
  {
    if n > 0 && k > 0 { BigEndianLength(n / 0x100, k - 1); }
  }

  /** The k lowest bytes of n, highest first. */
  function Fixed(n: nat, k: nat): (bs: seq<byte>)
    ensures |bs| == k
  {
    if k == 0 then [] else Fixed(n / 0x100, k - 1) + [n % 0x100]
  }

  lemma {:induction false} FixedValue(n: nat, k: nat)
    requires n < Pow256(k)
    ensures FromBigEndian(Fixed(n, k)) == n
  {
    if k == 0 {
    } else {
      FixedValue(n / 0x100, k - 1);
      assert Fixed(n, k)[..k - 1] == Fixed(n / 0x100, k - 1);
    }
  }

  /** Conversely, bytes are written again from the number that they stand for. */
  lemma {:induction false} FixedOfValue(bs: seq<byte>)
    ensures Fixed(FromBigEndian(bs), |bs|) == bs
  {
    if bs == [] {
    } else {
      var front, last := bs[..|bs| - 1], bs[|bs| - 1];
      FixedOfValue(front);
      assert FromBigEndian(bs) / 0x100 == FromBigEndian(front) && FromBigEndian(bs) % 0x100 == last;
      assert bs == front + [last];
    }
  }

  /** bytesRequired. */
  method BytesRequired(n: nat) returns (br: nat)
    ensures br == |BigEndian(n)|
  {
    br := 0;
    var i := n;
    while i != 0
      invariant br + |BigEndian(i)| == |BigEndian(n)|
      decreases i
    {
      i := i / 0x100;
      br := br + 1;
    }
  }

  /** fromBigEndian: shift in one byte after the other. */
  method ReadBigEndian(bs: seq<byte>) returns (n: nat)
    ensures n == FromBigEndian(bs)
  {
    n := 0;
    for i := 0 to |bs|
      invariant n == FromBigEndian(bs[..i])
    {
      assert bs[..i + 1][..i] == bs[..i];
      n := n * 0x100 + bs[i];
    }
    assert bs[..|bs|] == bs;
  }
}
